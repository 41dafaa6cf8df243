/** The pieces of Go's `strings`, `bytes`, `strconv` and `path/filepath` packages that
    the library relies on, stated over `seq<char>` (and `seq<byte>` for ioctl buffers). */
module Text {
  import opened Types

  // ---------------------------------------------------------------------------
  // Whitespace trimming (strings.TrimSpace)

  /** `unicode.IsSpace`: the ASCII spaces and the Unicode White_Space runes. */
  predicate IsSpace(c: char)
  {
    var n := c as int;
    (9 <= n <= 13) || n == 0x20 || n == 0x85 || n == 0xA0 || n == 0x1680
    || (0x2000 <= n <= 0x200A) || n == 0x2028 || n == 0x2029 || n == 0x202F || n == 0x205F || n == 0x3000
  }

  predicate AllSpace(s: string)
  {
    forall i :: 0 <= i < |s| ==> IsSpace(s[i])
  }

  /** No white space at either end. */
  predicate Trimmed(s: string)
  {
    s == [] || (!IsSpace(s[0]) && !IsSpace(s[|s| - 1]))
  }

  /** The first position at or after `i` that holds no white space (`|s|` if none). */
  function SkipSpace(s: string, i: nat): (k: nat)
    requires i <= |s|
    ensures i <= k <= |s|
    ensures k < |s| ==> !IsSpace(s[k])
    decreases |s| - i
  {
    if i < |s| && IsSpace(s[i]) then SkipSpace(s, i + 1) else i
  }

  /** The end of the last non-space character at or before `j` (0 if none). */
  function SkipSpaceBack(s: string, j: nat): (k: nat)
    requires j <= |s|
    ensures k <= j
    ensures k > 0 ==> !IsSpace(s[k - 1])
  {
    if j > 0 && IsSpace(s[j - 1]) then SkipSpaceBack(s, j - 1) else j
  }

  /** `strings.TrimSpace`: drops the leading white space, then the trailing white
      space. */
  function TrimSpace(s: string): (r: string)
    ensures Trimmed(r)
  {
    var t := s[SkipSpace(s, 0)..];
    t[..SkipSpaceBack(t, |t|)]
  }

  /** SkipSpace stops at the first non-space character after a run of white space. */
  lemma {:induction false} SkipSpaceOver(s: string, i: nat, k: nat)
    requires i <= k <= |s| && (k == |s| || !IsSpace(s[k]))
    requires forall m :: i <= m < k ==> IsSpace(s[m])
    ensures SkipSpace(s, i) == k
    decreases k - i
  {
    if i < k {
      SkipSpaceOver(s, i + 1, k);
    }
  }

  /** SkipSpaceBack stops just after the last non-space character before a run of
      white space. */
  lemma {:induction false} SkipSpaceBackOver(s: string, j: nat, k: nat)
    requires k <= j <= |s| && (k == 0 || !IsSpace(s[k - 1]))
    requires forall m :: k <= m < j ==> IsSpace(s[m])
    ensures SkipSpaceBack(s, j) == k
    decreases j - k
  {
    if k < j {
      SkipSpaceBackOver(s, j - 1, k);
    }
  }

  /** Trimming keeps every non-space character in place: white space around a trimmed
      text disappears and nothing else does. */
  lemma TrimSpaceAround(pre: string, s: string, post: string)
    requires AllSpace(pre) && AllSpace(post) && Trimmed(s)
    ensures TrimSpace(pre + s + post) == s
  {
    var x := pre + s + post;
    if s == [] {
      SkipSpaceOver(x, 0, |x|);
    } else {
      SkipSpaceOver(x, 0, |pre|);
      var t := x[|pre|..];
      assert t == s + post;
      SkipSpaceBackOver(t, |t|, |s|);
      assert t[..|s|] == s;
    }
  }

  /** Text that is already trimmed is left alone. */
  lemma TrimSpaceOfTrimmed(s: string)
    requires Trimmed(s)
    ensures TrimSpace(s) == s
  {
    assert [] + s + [] == s;
    TrimSpaceAround([], s, []);
  }

  // ---------------------------------------------------------------------------
  // ASCII case folding and substring search (strings.ToLower, strings.Contains)

  function Lower(c: char): (l: char)
  {
    if 'A' <= c <= 'Z' then (c as int + 32) as char else c
  }

  function ToLower(s: string): (r: string)
    ensures |r| == |s|
    ensures forall i :: 0 <= i < |s| ==> r[i] == Lower(s[i])
  {
    seq(|s|, i requires 0 <= i < |s| => Lower(s[i]))
  }

  /** `sub` occurs in `s` starting at position `i`. */
  predicate OccursAt(s: string, sub: string, i: int)
  {
    0 <= i && i + |sub| <= |s| && s[i..i + |sub|] == sub
  }

  /** Substring search, scanning left to right. */
  function Contains(s: string, sub: string): (b: bool)
    ensures b <==> exists i :: OccursAt(s, sub, i)
  {
    if |sub| > |s| then
      assert forall i :: !OccursAt(s, sub, i);
      false
    else if s[..|sub|] == sub then
      assert OccursAt(s, sub, 0);
      true
    else
      var b := Contains(s[1..], sub);
      assert forall i :: OccursAt(s, sub, i) && i > 0 ==> OccursAt(s[1..], sub, i - 1) by {
        forall i | OccursAt(s, sub, i) && i > 0 ensures OccursAt(s[1..], sub, i - 1) {
          assert s[1..][i - 1..i - 1 + |sub|] == s[i..i + |sub|];
        }
      }
      assert forall i :: OccursAt(s[1..], sub, i) ==> OccursAt(s, sub, i + 1) by {
        forall i | OccursAt(s[1..], sub, i) ensures OccursAt(s, sub, i + 1) {
          assert s[1..][i..i + |sub|] == s[i + 1..i + 1 + |sub|];
        }
      }
      b
  }

  // ---------------------------------------------------------------------------
  // Trailing NUL bytes (bytes.TrimRight(buf, "\x00"))

  /** The prefix of `s` that ends at its last non-zero byte. */
  function TrimRightNul(s: seq<byte>): (r: seq<byte>)
    ensures |r| <= |s| && r == s[..|r|]
    ensures forall i :: |r| <= i < |s| ==> s[i] == 0
    ensures r == [] || r[|r| - 1] != 0
  {
    if s != [] && s[|s| - 1] == 0 then TrimRightNul(s[..|s| - 1]) else s
  }

  /** `string(b)`: each byte becomes the character with that code. */
  function BytesText(b: seq<byte>): (s: string)
    ensures |s| == |b|
    ensures forall i :: 0 <= i < |b| ==> s[i] as int == b[i]
  {
    seq(|b|, i requires 0 <= i < |b| => b[i] as char)
  }

  // ---------------------------------------------------------------------------
  // Decimal text (strconv.Itoa, strconv.Atoi)

  predicate IsDigit(c: char) { '0' <= c <= '9' }

  function DigitChar(d: nat): (c: char)
    requires d < 10
    ensures IsDigit(c)
  {
    ('0' as int + d) as char
  }

  /** The decimal digits of `n`, most significant first, with no leading zero. */
  function NatDigits(n: nat): (s: string)
    ensures |s| >= 1
    ensures forall i :: 0 <= i < |s| ==> IsDigit(s[i])
    ensures |s| > 1 ==> s[0] != '0'
  {
    if n < 10 then [DigitChar(n)] else NatDigits(n / 10) + [DigitChar(n % 10)]
  }

  /** strconv.Itoa. */
  function Itoa(v: int): (s: string)
    ensures |s| >= 1 && Trimmed(s)
  {
    if v < 0 then "-" + NatDigits(-v) else NatDigits(v)
  }

  /** The value of a string of decimal digits. */
  function DecValue(s: string): nat
    requires forall i :: 0 <= i < |s| ==> IsDigit(s[i])
  {
    if s == [] then 0
    else
      assert IsDigit(s[|s| - 1]);
      DecValue(s[..|s| - 1]) * 10 + (s[|s| - 1] as int - '0' as int)
  }

  predicate AllDigits(s: string)
  {
    forall i :: 0 <= i < |s| ==> IsDigit(s[i])
  }

  const MinInt64: int := -0x8000_0000_0000_0000
  const MaxInt64: int := 0x7fff_ffff_ffff_ffff

  /** strconv.Atoi on a 64-bit platform: an optional sign, then at least one decimal
      digit and nothing else; a value outside int64 is a range error. */
  function Atoi(s: string): (r: Result<int>)
    ensures r.Ok? ==> MinInt64 <= r.value <= MaxInt64
    ensures r.Ok? ==> |s| >= 1
  {
    var neg := |s| >= 1 && s[0] == '-';
    var digits := if |s| >= 1 && (s[0] == '-' || s[0] == '+') then s[1..] else s;
    if digits == [] || !AllDigits(digits) then Err(SyntaxError(s))
    else
      var v := if neg then -(DecValue(digits) as int) else DecValue(digits);
      if v < MinInt64 || v > MaxInt64 then Err(RangeError(s)) else Ok(v)
  }

  lemma {:induction false} DecValueOfDigits(n: nat)
    ensures DecValue(NatDigits(n)) == n
  {
    if n >= 10 {
      var s := NatDigits(n / 10) + [DigitChar(n % 10)];
      assert s[..|s| - 1] == NatDigits(n / 10);
      DecValueOfDigits(n / 10);
    }
  }

  /** Decimal text round-trips: Atoi reads back every int64 that Itoa wrote. */
  lemma {:induction false} AtoiItoa(v: int)
    requires MinInt64 <= v <= MaxInt64
    ensures Atoi(Itoa(v)) == Ok(v)
  {
    var s := Itoa(v);
    if v < 0 {
      assert s[0] == '-' && s[1..] == NatDigits(-v);
      DecValueOfDigits(-v);
    } else {
      assert s == NatDigits(v);
      assert IsDigit(s[0]);
      DecValueOfDigits(v);
    }
  }

  // ---------------------------------------------------------------------------
  // Unsigned parsing (strconv.ParseUint(text, base, 16))

  /** The value of a digit character in bases up to 36, or 36 for a non-digit. */
  function DigitValue(c: char): (d: nat)
    ensures d <= 36
  {
    if '0' <= c <= '9' then c as int - '0' as int
    else if 'a' <= c <= 'z' then c as int - 'a' as int + 10
    else if 'A' <= c <= 'Z' then c as int - 'A' as int + 10
    else 36
  }

  predicate DigitsIn(s: string, base: nat)
  {
    forall i :: 0 <= i < |s| ==> DigitValue(s[i]) < base
  }

  /** The value of the first `n` characters of `s` read as digits in `base`. */
  function PrefixValue(s: string, base: nat, n: nat): nat
    requires n <= |s|
  {
    if n == 0 then 0 else PrefixValue(s, base, n - 1) * base + DigitValue(s[n - 1])
  }

  /** The value of `s` read as digits in `base`, most significant first. */
  function DigitsValue(s: string, base: nat): nat
  {
    PrefixValue(s, base, |s|)
  }

  const MaxUint16: nat := 0xffff

  /** The digits of `s` in `base`, when every character is a digit of that base and
      the value fits in 16 bits. */
  function ParseDigits16(s: string, base: nat): (r: Option<uint16>)
    ensures r.Some? <==> DigitsIn(s, base) && DigitsValue(s, base) <= MaxUint16
    ensures r.Some? ==> r.value == DigitsValue(s, base) && r.value <= MaxUint16
  {
    if DigitsIn(s, base) && DigitsValue(s, base) <= MaxUint16 then Some(DigitsValue(s, base)) else None
  }

  /** strconv.ParseUint(text, 16, 16): bare hexadecimal digits, no prefix, no sign. */
  function ParseHex16(s: string): (r: Option<uint16>)
    ensures r.Some? ==> s != [] && DigitsIn(s, 16) && r.value == DigitsValue(s, 16)
  {
    if s == [] then None else ParseDigits16(s, 16)
  }

  /** strconv.ParseUint(text, 0, 16): a `0x`, `0o` or `0b` prefix (either case) picks
      the base, a lone leading `0` means octal, anything else is decimal. */
  function ParseBase0Uint16(s: string): (r: Option<uint16>)
    ensures s == [] ==> r.None?
  {
    if s == [] then None
    else
      var (base, digits) :=
        if s[0] == '0' && |s| >= 3 && Lower(s[1]) == 'b' then (2, s[2..])
        else if s[0] == '0' && |s| >= 3 && Lower(s[1]) == 'o' then (8, s[2..])
        else if s[0] == '0' && |s| >= 3 && Lower(s[1]) == 'x' then (16, s[2..])
        else if s[0] == '0' then (8, s[1..])
        else (10, s);
      ParseDigits16(digits, base)
  }

  // ---------------------------------------------------------------------------
  // Slash-separated paths (path/filepath on Unix)

  /** `filepath.Join(dir, name)` for a single element `name`, on paths without `.`,
      `..` or repeated separators. */
  function Join(dir: string, name: string): (p: string)
    ensures name != [] && dir != [] && dir[|dir| - 1] != '/' ==> p == dir + "/" + name
  {
    if name == [] then dir
    else if dir == [] then name
    else if dir[|dir| - 1] == '/' then dir + name
    else dir + "/" + name
  }

  /** The end of `s[..j]` once its trailing slashes are dropped. */
  function SlashesBack(s: string, j: nat): (k: nat)
    requires j <= |s|
    ensures k <= j
    ensures k > 0 ==> s[k - 1] != '/'
  {
    if j > 0 && s[j - 1] == '/' then SlashesBack(s, j - 1) else j
  }

  /** The start of the element that ends at `j`: just after the slash before it, or
      0. */
  function ElementStart(s: string, j: nat): (k: nat)
    requires j <= |s|
    ensures k <= j
    ensures k > 0 ==> s[k - 1] == '/'
  {
    if j > 0 && s[j - 1] != '/' then ElementStart(s, j - 1) else j
  }

  /** `filepath.Base`: the last element, ignoring trailing slashes; "." for the empty
      path and "/" for a path of slashes only. */
  function Base(path: string): (b: string)
    ensures b != []
  {
    if path == [] then "."
    else
      var end := SlashesBack(path, |path|);
      var start := ElementStart(path, end);
      if start == end then "/" else path[start..end]
  }

  /** `filepath.Clean` on paths without `.`, `..` or repeated separators: only the
      trailing slashes go, the root stays "/" and the empty path becomes ".". */
  function Clean(path: string): (c: string)
  {
    if path == [] then "."
    else
      var end := SlashesBack(path, |path|);
      if end == 0 then "/" else path[..end]
  }

  /** `filepath.Dir`: everything up to the last slash, cleaned. */
  function Dir(path: string): (d: string)
  {
    Clean(path[..ElementStart(path, |path|)])
  }

  /** ElementStart stops just after the slash that precedes a run of other
      characters. */
  lemma {:induction false} ElementStartOver(s: string, j: nat, k: nat)
    requires k <= j <= |s| && (k == 0 || s[k - 1] == '/')
    requires forall m :: k <= m < j ==> s[m] != '/'
    ensures ElementStart(s, j) == k
    decreases j - k
  {
    if k < j {
      ElementStartOver(s, j - 1, k);
    }
  }

  /** The part of `Join(dir, name)` before `name`: nothing, or a text ending in a
      slash. */
  function JoinPrefix(dir: string): (pre: string)
    ensures pre == [] || pre[|pre| - 1] == '/'
  {
    if dir == [] then [] else if dir[|dir| - 1] == '/' then dir else dir + "/"
  }

  lemma JoinSplits(dir: string, name: string)
    requires name != []
    ensures Join(dir, name) == JoinPrefix(dir) + name
  {
  }

  /** Joining a plain name onto a directory and taking the base gives the name back. */
  lemma BaseOfJoin(dir: string, name: string)
    requires name != [] && forall i :: 0 <= i < |name| ==> name[i] != '/'
    ensures Base(Join(dir, name)) == name
  {
    var pre := JoinPrefix(dir);
    JoinSplits(dir, name);
    var p := pre + name;
    assert p[|p| - 1] == name[|name| - 1];
    assert SlashesBack(p, |p|) == |p|;
    ElementStartOver(p, |p|, |pre|);
    assert p[|pre|..|p|] == name;
  }

  /** Joining a plain name onto a directory written without a trailing slash and
      taking the directory gives the directory back. */
  lemma DirOfJoin(dir: string, name: string)
    requires name != [] && forall i :: 0 <= i < |name| ==> name[i] != '/'
    requires dir != [] && (dir == "/" || dir[|dir| - 1] != '/')
    ensures Dir(Join(dir, name)) == dir
  {
    var pre := JoinPrefix(dir);
    JoinSplits(dir, name);
    var p := pre + name;
    ElementStartOver(p, |p|, |pre|);
    assert p[..|pre|] == pre;
    if dir == "/" {
      assert pre == "/";
    } else {
      assert pre == dir + "/";
      assert SlashesBack(pre, |pre|) == |dir| by {
        assert pre[|dir|] == '/' && pre[|dir| - 1] != '/';
      }
      assert pre[..|dir|] == dir;
    }
  }

  /** Go compares strings byte by byte; for text held as code points that is the
      lexicographic order on characters (UTF-8 preserves code-point order). */
  predicate LexLess(a: string, b: string)
  {
    if a == [] then b != []
    else if b == [] then false
    else if a[0] != b[0] then a[0] < b[0]
    else LexLess(a[1..], b[1..])
  }

  lemma {:induction false} LexLessIrreflexive(a: string)
    ensures !LexLess(a, a)
  {
    if a != [] { LexLessIrreflexive(a[1..]); }
  }

  lemma {:induction false} LexLessTotal(a: string, b: string)
    ensures a == b || LexLess(a, b) || LexLess(b, a)
  {
    if a != [] && b != [] && a[0] == b[0] {
      LexLessTotal(a[1..], b[1..]);
      if a[1..] == b[1..] {
        assert a == [a[0]] + a[1..] && b == [b[0]] + b[1..];
      }
    }
  }

  lemma {:induction false} LexLessTransitive(a: string, b: string, c: string)
    requires LexLess(a, b) && LexLess(b, c)
    ensures LexLess(a, c)
  {
    if a != [] && b != [] && c != [] && a[0] == b[0] && b[0] == c[0] {
      LexLessTransitive(a[1..], b[1..], c[1..]);
    }
  }

  lemma {:induction false} LexLessAsymmetric(a: string, b: string)
    requires LexLess(a, b)
    ensures !LexLess(b, a)
  {
    if a != [] && b != [] && a[0] == b[0] {
      LexLessAsymmetric(a[1..], b[1..]);
    }
  }
}
