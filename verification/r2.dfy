/** `generateImageKey`: the object-store key of a product's mockup image,
    `products/<productId>/<timestamp>.<extension>`. The clock reading
    (`Date.now()`, milliseconds) is a parameter. */
module R2 {
  import opened Wrappers

  /** The part of `s` after its last `c`, or all of `s` when it has no `c`:
      `s.split(c).pop()`. */
  function AfterLast(s: string, c: char): (r: string)
    ensures c !in r
    ensures |r| <= |s| && r == s[|s| - |r|..]
    ensures |r| < |s| ==> s[|s| - |r| - 1] == c
  {
    if |s| == 0 then ""
    else if s[|s| - 1] == c then ""
    else
      var init := s[..|s| - 1];
      var rest := AfterLast(init, c);
      assert init[|init| - |rest|..] + [s[|s| - 1]] == s[|s| - |rest| - 1..];
      rest + [s[|s| - 1]]
  }

  /** The three facts above pin the segment down: any dot-free suffix that is
      all of `s` or follows a `c` is it. */
  lemma AfterLastUnique(s: string, c: char, e: string)
    requires c !in e
    requires |e| <= |s| && e == s[|s| - |e|..]
    requires |e| < |s| ==> s[|s| - |e| - 1] == c
    ensures AfterLast(s, c) == e
  {
  }

  /** The extension `generateImageKey` uses: the text after the last `.`. */
  function Extension(fileName: string): (ext: string)
    ensures '.' !in ext
    ensures |ext| <= |fileName| && ext == fileName[|fileName| - |ext|..]
    ensures |ext| < |fileName| ==> fileName[|fileName| - |ext| - 1] == '.'
  {
    AfterLast(fileName, '.')
  }

  /** Without a `.`, the extension is the whole file name. */
  lemma ExtensionWithoutDot(fileName: string)
    requires '.' !in fileName
    ensures Extension(fileName) == fileName
  {
  }

  /** A file name ending in `.` has an empty extension. */
  lemma ExtensionAfterTrailingDot(fileName: string)
    requires |fileName| > 0 && fileName[|fileName| - 1] == '.'
    ensures Extension(fileName) == ""
  {
  }

  // ---------------------------------------------------------------------------
  // String.prototype.split as an independent reference
  // ---------------------------------------------------------------------------

  /** `s.split(c)`: the pieces between occurrences of `c`; always at least one. */
  function Split(s: string, c: char): (parts: seq<string>)
    ensures |parts| >= 1
    ensures |parts| == 1 <==> c !in s
    ensures |parts| == 1 ==> parts[0] == s
    decreases |s|
  {
    if |s| == 0 then [""]
    else
      var rest := Split(s[1..], c);
      if s[0] == c then [""] + rest
      else [[s[0]] + rest[0]] + rest[1..]
  }

  /** Joins pieces with `c` between them (`parts.join(c)`). */
  function Join(parts: seq<string>, c: char): string
    requires |parts| >= 1
    decreases |parts|
  {
    if |parts| == 1 then parts[0] else parts[0] + [c] + Join(parts[1..], c)
  }

  /** Splitting and joining again gives back the file name. */
  lemma {:induction false} SplitJoin(s: string, c: char)
    ensures Join(Split(s, c), c) == s
    decreases |s|
  {
    if |s| > 0 {
      var rest := Split(s[1..], c);
      SplitJoin(s[1..], c);
      if s[0] != c {
        if |rest| == 1 {
          assert Join(Split(s, c), c) == [s[0]] + rest[0];
        } else {
          assert Join(Split(s, c), c) == [s[0]] + rest[0] + [c] + Join(rest[1..], c);
        }
      }
      assert s == [s[0]] + s[1..];
    }
  }

  /** The last piece of the split carries no `c`, is a suffix of `s`, and is
      all of `s` or follows a `c`. */
  lemma {:induction false} LastPieceShape(s: string, c: char)
    ensures var p := Split(s, c)[|Split(s, c)| - 1];
            && c !in p
            && |p| <= |s| && p == s[|s| - |p|..]
            && (|p| < |s| ==> s[|s| - |p| - 1] == c)
    decreases |s|
  {
    if |s| > 0 {
      LastPieceShape(s[1..], c);
      var rest := Split(s[1..], c);
      var p := Split(s, c)[|Split(s, c)| - 1];
      if s[0] == c || |rest| > 1 {
        assert p == rest[|rest| - 1];
        assert s[1..][|s[1..]| - |p|..] == s[|s| - |p|..];
        if |p| < |s| - 1 {
          assert s[1..][|s[1..]| - |p| - 1] == s[|s| - |p| - 1];
        }
      } else {
        assert rest[0] == s[1..];
        assert s == [s[0]] + s[1..];
      }
    }
  }

  /** `fileName.split('.').pop()` is `Extension(fileName)`. */
  lemma ExtensionIsLastSplitPiece(fileName: string)
    ensures Split(fileName, '.')[|Split(fileName, '.')| - 1] == Extension(fileName)
  {
    LastPieceShape(fileName, '.');
    AfterLastUnique(fileName, '.', Split(fileName, '.')[|Split(fileName, '.')| - 1]);
  }

  // ---------------------------------------------------------------------------
  // The timestamp in decimal
  // ---------------------------------------------------------------------------

  predicate IsDigit(ch: char) {
    '0' <= ch <= '9'
  }

  predicate AllDigits(s: string) {
    forall i :: 0 <= i < |s| ==> IsDigit(s[i])
  }

  function DigitChar(d: nat): char
    requires d < 10
  {
    ['0', '1', '2', '3', '4', '5', '6', '7', '8', '9'][d]
  }

  /** `${n}` for a non-negative integer: its decimal digits, no sign, no point. */
  function Decimal(n: nat): (r: string)
    ensures |r| >= 1
    ensures AllDigits(r)
    ensures |r| > 1 ==> r[0] != '0'
    ensures r == "0" <==> n == 0
  {
    if n < 10 then [DigitChar(n)] else Decimal(n / 10) + [DigitChar(n % 10)]
  }

  function DigitValue(ch: char): nat
    requires IsDigit(ch)
  {
    (ch as int - '0' as int) as nat
  }

  /** Reads a string of decimal digits back as a number. */
  function ParseDecimal(s: string): nat
    requires AllDigits(s)
  {
    if |s| == 0 then 0 else ParseDecimal(s[..|s| - 1]) * 10 + DigitValue(s[|s| - 1])
  }

  lemma {:induction false} DecimalRoundTrip(n: nat)
    ensures ParseDecimal(Decimal(n)) == n
  {
    if n >= 10 {
      var d := Decimal(n);
      assert d[..|d| - 1] == Decimal(n / 10);
      DecimalRoundTrip(n / 10);
    }
  }

  // ---------------------------------------------------------------------------
  // The key
  // ---------------------------------------------------------------------------

  /** `key` is `prefix`, then `middle`, then a `.`, then `ext`. */
  predicate Layout(key: string, prefix: string, middle: string, ext: string) {
    && |key| == |prefix| + |middle| + 1 + |ext|
    && key[..|prefix|] == prefix
    && key[|prefix|..|key| - |ext| - 1] == middle
    && key[|key| - |ext| - 1] == '.'
    && key[|key| - |ext|..] == ext
  }

  /** Concatenation lays the pieces out in order. */
  lemma KeyLayout(prefix: string, middle: string, ext: string)
    ensures Layout(prefix + middle + "." + ext, prefix, middle, ext)
  {
    var key := prefix + middle + "." + ext;
    assert key[..|prefix|] == prefix;
    assert key[|prefix|..|key| - |ext| - 1] == middle;
    assert key[|key| - |ext|..] == ext;
  }

  /** `products/${productId}/${timestamp}.${extension}`: the key is
      `products/<productId>/`, then the clock reading in decimal digits, then a
      `.` and the file's extension. */
  function GenerateImageKey(productId: string, fileName: string, timestamp: nat): (key: string)
    ensures Layout(key, "products/" + productId + "/", Decimal(timestamp), Extension(fileName))
  {
    var prefix := "products/" + productId + "/";
    var digits := Decimal(timestamp);
    var ext := Extension(fileName);
    KeyLayout(prefix, digits, ext);
    prefix + digits + "." + ext
  }

  /** The two variable parts of a key that can be read back from its end. */
  datatype KeyTail = KeyTail(timestampDigits: string, extension: string)

  /** Reads a key from the end: the extension after the last `.`, and the
      timestamp digits between the last `/` and that `.`. `None` when the key
      has no `.`. */
  function ParseImageKey(key: string): Option<KeyTail>
  {
    var ext := AfterLast(key, '.');
    if |ext| == |key| then None
    else Some(KeyTail(AfterLast(key[..|key| - |ext| - 1], '/'), ext))
  }

  /** The clock reading a key carries, when its timestamp part is all digits. */
  function KeyTimestamp(key: string): Option<nat> {
    var tail := ParseImageKey(key);
    if tail.Some? && AllDigits(tail.value.timestampDigits) then Some(ParseDecimal(tail.value.timestampDigits))
    else None
  }

  /** In `stem + [c] + tail` with no `c` in `tail`, the part after the last
      `c` is `tail` and the part before it is `stem`. */
  lemma SuffixAfterSeparator(stem: string, c: char, tail: string)
    requires c !in tail
    ensures var s := stem + [c] + tail;
            && AfterLast(s, c) == tail
            && s[..|s| - |tail| - 1] == stem
  {
    var s := stem + [c] + tail;
    assert s[|s| - |tail|..] == tail;
    assert s[|s| - |tail| - 1] == c;
    AfterLastUnique(s, c, tail);
  }

  /** Parsing any `<head>/<digits>.<ext>` gives back `digits` and `ext`, as
      long as `digits` holds neither separator and `ext` no `.`. */
  lemma ParseOfShapedKey(head: string, digits: string, ext: string)
    requires '/' !in digits && '.' !in digits
    requires '.' !in ext
    ensures ParseImageKey(head + ['/'] + digits + ['.'] + ext) == Some(KeyTail(digits, ext))
  {
    var stem := head + ['/'] + digits;
    SuffixAfterSeparator(stem, '.', ext);
    SuffixAfterSeparator(head, '/', digits);
  }

  /** The key is `<head>/<digits>.<ext>` with the timestamp's digits and the
      file's extension in those places, so parsing it gives both back: the
      extension holds no `.`, and the digits hold neither `.` nor `/`. */
  lemma ImageKeyTail(productId: string, fileName: string, timestamp: nat)
    ensures ParseImageKey(GenerateImageKey(productId, fileName, timestamp))
              == Some(KeyTail(Decimal(timestamp), Extension(fileName)))
  {
    var head := "products/" + productId;
    var digits := Decimal(timestamp);
    assert GenerateImageKey(productId, fileName, timestamp) == head + ['/'] + digits + ['.'] + Extension(fileName);
    assert '/' !in digits && '.' !in digits;
    ParseOfShapedKey(head, digits, Extension(fileName));
  }

  /** The clock reading can be read back out of the key, and the key's own
      extension is the file's. */
  lemma ImageKeyRoundTrip(productId: string, fileName: string, timestamp: nat)
    ensures KeyTimestamp(GenerateImageKey(productId, fileName, timestamp)) == Some(timestamp)
    ensures Extension(GenerateImageKey(productId, fileName, timestamp)) == Extension(fileName)
  {
    ImageKeyTail(productId, fileName, timestamp);
    DecimalRoundTrip(timestamp);
  }

  /** A file name ending in `.` gives a key ending in `.`. */
  lemma ImageKeyAfterTrailingDot(productId: string, fileName: string, timestamp: nat)
    requires |fileName| > 0 && fileName[|fileName| - 1] == '.'
    ensures var key := GenerateImageKey(productId, fileName, timestamp);
            key[|key| - 1] == '.'
  {
    ExtensionAfterTrailingDot(fileName);
  }
}
