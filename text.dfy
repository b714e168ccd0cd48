/** The Python string and posix-path built-ins the core relies on: `sub in s`,
    `s.split(c)`, `s.split(d)[0]`, `s.lower()`, `os.path.basename`,
    `os.path.splitext`, `s.endswith(x)` and `str(n)` for an integer `n`. */
module Text {
  import opened Wrappers

  predicate IsDigit(c: char) {
    '0' <= c <= '9'
  }

  predicate AllDigits(s: string) {
    forall i :: 0 <= i < |s| ==> IsDigit(s[i])
  }

  /** `sub` occurs in `s` starting at position `i`. */
  predicate OccursAt(s: string, sub: string, i: nat) {
    i + |sub| <= |s| && s[i..i + |sub|] == sub
  }

  /** `s.endswith(suffix)` */
  predicate EndsWith(s: string, suffix: string) {
    |suffix| <= |s| && s[|s| - |suffix|..] == suffix
  }

  /** The first position at or after `i` where `sub` occurs in `s`. */
  function IndexFrom(s: string, sub: string, i: nat): (r: Option<nat>)
    requires i <= |s|
    ensures r.Some? ==> i <= r.value && OccursAt(s, sub, r.value)
    ensures r.Some? ==> forall j :: i <= j < r.value ==> !OccursAt(s, sub, j)
    ensures r.None? ==> forall j :: i <= j ==> !OccursAt(s, sub, j)
    decreases |s| - i
  {
    if OccursAt(s, sub, i) then Some(i)
    else if i == |s| then None
    else IndexFrom(s, sub, i + 1)
  }

  /** `s.find(sub)`, with None for -1. */
  function IndexOf(s: string, sub: string): Option<nat> {
    IndexFrom(s, sub, 0)
  }

  /** `sub in s` */
  function Contains(s: string, sub: string): (r: bool)
    ensures r <==> exists i :: OccursAt(s, sub, i)
  {
    IndexOf(s, sub).Some?
  }

  /** `s.split(d)[0]`: everything before the first occurrence of `d`, or all
      of `s` when `d` does not occur. */
  function BeforeFirst(s: string, d: string): (r: string)
    ensures r <= s
    ensures Contains(s, d) ==> OccursAt(s, d, |r|)
    ensures !Contains(s, d) ==> r == s
    ensures |d| > 0 ==> !Contains(r, d)
    ensures forall j: nat :: j < |r| ==> !OccursAt(s, d, j)
  {
    match IndexOf(s, d)
    case None => s
    case Some(i) =>
      assert forall j :: OccursAt(s[..i], d, j) ==> OccursAt(s, d, j) by {
        forall j: nat | OccursAt(s[..i], d, j) ensures OccursAt(s, d, j) {
          assert s[..i][j..j + |d|] == s[j..j + |d|];
        }
      }
      s[..i]
  }

  /** The last position holding `c`. */
  function LastIndexOf(s: string, c: char): (r: Option<nat>)
    ensures r.Some? ==> r.value < |s| && s[r.value] == c
    ensures r.Some? ==> forall j :: r.value < j < |s| ==> s[j] != c
    ensures r.None? ==> forall j :: 0 <= j < |s| ==> s[j] != c
  {
    if s == [] then None
    else if s[|s| - 1] == c then Some(|s| - 1)
    else LastIndexOf(s[..|s| - 1], c)
  }

  lemma LastIndexOfAt(s: string, c: char, i: nat)
    requires i < |s| && s[i] == c
    requires forall j :: i < j < |s| ==> s[j] != c
    ensures LastIndexOf(s, c) == Some(i)
  {
  }

  /** Where the last path component of `p` starts: just after its last '/'. */
  function BaseStart(p: string): (r: nat)
    ensures r <= |p|
  {
    match LastIndexOf(p, '/')
    case None => 0
    case Some(i) => i + 1
  }

  /** `os.path.basename(p)` on a posix path: what follows the last '/'. */
  function Basename(p: string): string {
    p[BaseStart(p)..]
  }

  /** The last component is a '/'-free suffix of the path, preceded by a '/'
      unless it is the whole path. */
  lemma BasenameIs(p: string)
    ensures '/' !in Basename(p)
    ensures BaseStart(p) > 0 ==> p[BaseStart(p) - 1] == '/'
  {
  }

  /** The base name of a name placed in a directory is that name. */
  lemma BasenameUnder(dir: string, b: string)
    requires dir == [] || dir[|dir| - 1] == '/'
    requires '/' !in b
    ensures Basename(dir + b) == b
  {
    var p := dir + b;
    assert forall j :: |dir| <= j < |p| ==> p[j] == b[j - |dir|];
    if dir != [] {
      LastIndexOfAt(p, '/', |dir| - 1);
    }
    assert p[|dir|..] == b;
  }

  /** Some character of `s` is not a dot. */
  predicate HasNonDot(s: string) {
    exists k :: 0 <= k < |s| && s[k] != '.'
  }

  /** How many dots `s` starts with. */
  function LeadingDots(s: string): (r: nat)
    ensures r <= |s|
    ensures forall k :: 0 <= k < r ==> s[k] == '.'
    ensures r < |s| ==> s[r] != '.'
  {
    if s == [] || s[0] != '.' then 0 else 1 + LeadingDots(s[1..])
  }

  /** Exactly the prefixes longer than the leading dots have a non-dot. */
  lemma HasNonDotPrefix(s: string, d: nat)
    requires d <= |s|
    ensures HasNonDot(s[..d]) <==> LeadingDots(s) < d
  {
    var n := LeadingDots(s);
    if n < d {
      assert s[..d][n] != '.';
    }
  }

  /** Where the extension of a last path component `b` starts (`|b|` when it
      has none): at its last dot, provided some non-dot precedes that dot. */
  function ExtStart(b: string): (r: nat)
    ensures r <= |b|
  {
    match LastIndexOf(b, '.')
    case None => |b|
    case Some(d) => if LeadingDots(b) < d then d else |b|
  }

  /** `os.path.splitext(p)` on a posix path, as the pair (root, ext): the
      extension starts at the last '.' of the last path component, unless
      everything before that dot in the component is itself a dot. */
  function SplitExt(p: string): (r: (string, string))
    ensures r.0 + r.1 == p
  {
    var i := BaseStart(p) + ExtStart(Basename(p));
    assert p[..i] + p[i..] == p;
    (p[..i], p[i..])
  }

  /** A component's extension starts at its last dot, which has a non-dot
      somewhere before it. */
  lemma ExtStartIs(b: string)
    requires ExtStart(b) < |b|
    ensures var d := ExtStart(b);
      && b[d] == '.' && (forall j :: d < j < |b| ==> b[j] != '.')
      && HasNonDot(b[..d])
  {
    HasNonDotPrefix(b, ExtStart(b));
  }

  /** Conversely, the last dot of a component starts its extension when a
      non-dot precedes it. */
  lemma ExtStartAt(b: string, d: nat)
    requires d < |b| && b[d] == '.' && HasNonDot(b[..d])
    requires forall j :: d < j < |b| ==> b[j] != '.'
    ensures ExtStart(b) == d
  {
    LastIndexOfAt(b, '.', d);
    HasNonDotPrefix(b, d);
  }

  /** The extension of a path is that of its last component. */
  lemma SplitExtTail(p: string)
    ensures SplitExt(p).1 == Basename(p)[ExtStart(Basename(p))..]
  {
    var b := Basename(p);
    assert p[BaseStart(p) + ExtStart(b)..] == b[ExtStart(b)..];
  }

  /** A non-empty extension starts at the last dot of the last path
      component, with something other than a dot before it. */
  lemma SplitExtIs(p: string)
    requires SplitExt(p).1 != []
    ensures var b := Basename(p); var d := ExtStart(b);
      && d < |b| && SplitExt(p).1 == b[d..]
      && b[d] == '.' && (forall j :: d < j < |b| ==> b[j] != '.')
      && HasNonDot(b[..d])
  {
    SplitExtTail(p);
    ExtStartIs(Basename(p));
  }

  /** Conversely, the extension is everything from the last dot of the last
      path component on, when something other than a dot precedes that dot. */
  lemma SplitExtAt(p: string, d: nat)
    requires d < |Basename(p)| && Basename(p)[d] == '.' && HasNonDot(Basename(p)[..d])
    requires forall j :: d < j < |Basename(p)| ==> Basename(p)[j] != '.'
    ensures SplitExt(p).1 == Basename(p)[d..]
  {
    ExtStartAt(Basename(p), d);
    SplitExtTail(p);
  }

  /** A name without '/' splits at its last dot when something other
      than a dot precedes it. */
  lemma SplitExtName(b: string, d: nat)
    requires '/' !in b
    requires d < |b| && b[d] == '.' && HasNonDot(b[..d])
    requires forall j :: d < j < |b| ==> b[j] != '.'
    ensures SplitExt(b) == (b[..d], b[d..])
  {
    BasenameUnder([], b);
    assert [] + b == b;
    SplitExtAt(b, d);
    assert SplitExt(b).0 + SplitExt(b).1 == b;
    assert b[..d] + b[d..] == b;
  }

  function LowerChar(c: char): char {
    if 'A' <= c <= 'Z' then (c as int + 32) as char else c
  }

  /** `s.lower()` on ASCII letters; every other character is kept. */
  function Lower(s: string): (r: string)
    ensures |r| == |s|
    ensures forall i :: 0 <= i < |s| ==> r[i] == LowerChar(s[i])
  {
    seq(|s|, i requires 0 <= i < |s| => LowerChar(s[i]))
  }

  /** `s.split(sep)` for a one-character separator. */
  function Split(s: string, sep: char): (r: seq<string>)
    ensures |r| > 0
  {
    if s == [] then [[]]
    else if s[0] == sep then [[]] + Split(s[1..], sep)
    else
      var rest := Split(s[1..], sep);
      [[s[0]] + rest[0]] + rest[1..]
  }

  /** `sep.join(parts)` */
  function Join(parts: seq<string>, sep: char): string {
    if |parts| == 0 then []
    else if |parts| == 1 then parts[0]
    else parts[0] + [sep] + Join(parts[1..], sep)
  }

  /** Prepending a character to the first piece prepends it to the join. */
  lemma JoinConsHead(c: char, parts: seq<string>, sep: char)
    requires |parts| > 0
    ensures Join([[c] + parts[0]] + parts[1..], sep) == [c] + Join(parts, sep)
  {
    var q := [[c] + parts[0]] + parts[1..];
    if |parts| > 1 {
      assert q[1..] == parts[1..];
      ConcatAssoc([c] + parts[0], [sep], Join(parts[1..], sep));
      ConcatAssoc([c], parts[0], [sep] + Join(parts[1..], sep));
      ConcatAssoc(parts[0], [sep], Join(parts[1..], sep));
    }
  }

  /** Splitting and joining again gives the input back. */
  lemma {:induction false} SplitJoin(s: string, sep: char)
    ensures Join(Split(s, sep), sep) == s
  {
    if s == [] {
    } else if s[0] == sep {
      SplitJoin(s[1..], sep);
      var rest := Split(s[1..], sep);
      assert Split(s, sep) == [[]] + rest;
      assert ([[]] + rest)[1..] == rest;
      assert s == [sep] + s[1..];
    } else {
      SplitJoin(s[1..], sep);
      var rest := Split(s[1..], sep);
      JoinConsHead(s[0], rest, sep);
      assert s == [s[0]] + s[1..];
    }
  }

  /** The pieces of a splitting are free of the separator. */
  lemma {:induction false} SplitPieces(s: string, sep: char)
    ensures forall i :: 0 <= i < |Split(s, sep)| ==> sep !in Split(s, sep)[i]
  {
    if s != [] {
      SplitPieces(s[1..], sep);
      var rest := Split(s[1..], sep);
      if s[0] != sep {
        assert Split(s, sep) == [[s[0]] + rest[0]] + rest[1..];
      }
    }
  }

  /** Conversely, joining separator-free pieces and splitting again gives
      the pieces back. */
  lemma {:induction false} JoinSplit(parts: seq<string>, sep: char)
    requires |parts| > 0
    requires forall i :: 0 <= i < |parts| ==> sep !in parts[i]
    ensures Split(Join(parts, sep), sep) == parts
    decreases |parts|, |parts[0]|
  {
    var p := parts[0];
    if |parts| == 1 {
      if p != [] {
        assert p[0] in parts[0];
        JoinSplit([p[1..]], sep);
        assert Join([p[1..]], sep) == p[1..];
        assert Split(p, sep) == [[p[0]] + p[1..]];
        assert [p[0]] + p[1..] == p;
      }
    } else if p == [] {
      JoinSplit(parts[1..], sep);
      assert Join(parts, sep) == [sep] + Join(parts[1..], sep);
      assert ([sep] + Join(parts[1..], sep))[1..] == Join(parts[1..], sep);
      assert parts == [[]] + parts[1..];
    } else {
      var shorter := [p[1..]] + parts[1..];
      JoinSplit(shorter, sep);
      assert [p[0]] + p[1..] == p;
      assert [[p[0]] + shorter[0]] + shorter[1..] == parts;
      JoinConsHead(p[0], shorter, sep);
      assert (Join(parts, sep))[1..] == Join(shorter, sep);
    }
  }

  function DigitChar(d: nat): (c: char)
    requires d < 10
    ensures IsDigit(c)
  {
    ('0' as int + d) as char
  }

  /** `str(n)` for a natural number: its decimal digits, most significant
      first, without leading zeros. */
  function NatToString(n: nat): (r: string)
    ensures |r| > 0 && AllDigits(r)
    ensures r[0] == '0' ==> n == 0
    decreases n
  {
    (if n < 10 then [] else NatToString(n / 10)) + [DigitChar(n % 10)]
  }

  /** `str(n)` for an integer. */
  function DecimalString(n: int): (r: string)
    ensures |r| > 0
  {
    if n < 0 then "-" + NatToString(-n) else NatToString(n)
  }

  /** The number a string of decimal digits denotes. */
  function DigitsValue(ds: string): nat
    requires AllDigits(ds)
  {
    if ds == [] then 0
    else 10 * DigitsValue(ds[..|ds| - 1]) + (ds[|ds| - 1] as int - '0' as int)
  }

  /** The longest run of digits at the start of `s`. */
  function LeadingDigits(s: string): (r: string)
    ensures r <= s && AllDigits(r)
    ensures |r| == |s| || !IsDigit(s[|r|])
  {
    if s == [] || !IsDigit(s[0]) then [] else [s[0]] + LeadingDigits(s[1..])
  }

  /** The optionally signed decimal integer at the start of `s`. */
  function LeadingInt(s: string): int {
    if |s| > 0 && s[0] == '-' then -(DigitsValue(LeadingDigits(s[1..])) as int)
    else DigitsValue(LeadingDigits(s))
  }

  lemma {:induction false} NatToStringValue(n: nat)
    ensures DigitsValue(NatToString(n)) == n
    decreases n
  {
    var r := NatToString(n);
    if n >= 10 {
      NatToStringValue(n / 10);
    }
    assert r[..|r| - 1] == if n < 10 then [] else NatToString(n / 10);
  }

  /** `str(n)` is the only spelling of `n` without a leading zero: a digit
      string that does not start with '0', or is "0" itself, is `str` of
      the number it denotes. */
  lemma {:induction false} NatToStringCanonical(ds: string)
    requires |ds| > 0 && AllDigits(ds)
    requires ds[0] != '0' || |ds| == 1
    ensures NatToString(DigitsValue(ds)) == ds
    decreases |ds|
  {
    var pre, d := ds[..|ds| - 1], ds[|ds| - 1] as int - '0' as int;
    if |ds| == 1 {
      assert ds == [DigitChar(d)];
    } else {
      assert pre[0] == ds[0];
      NatToStringCanonical(pre);
      var n := DigitsValue(ds);
      assert DigitsValue(pre) > 0;
      assert n / 10 == DigitsValue(pre) && n % 10 == d;
      assert ds == pre + [DigitChar(d)];
    }
  }

  lemma {:induction false} LeadingDigitsOf(ds: string, rest: string)
    requires AllDigits(ds)
    requires rest == [] || !IsDigit(rest[0])
    ensures LeadingDigits(ds + rest) == ds
    decreases |ds|
  {
    if ds != [] {
      LeadingDigitsOf(ds[1..], rest);
      assert (ds + rest)[1..] == ds[1..] + rest;
      assert ds == [ds[0]] + ds[1..];
    } else {
      assert ds + rest == rest;
    }
  }

  lemma TakeSnoc<T>(xs: seq<T>, j: nat)
    requires j < |xs|
    ensures xs[..j + 1] == xs[..j] + [xs[j]]
  {
  }

  lemma ConcatAssoc<T>(a: seq<T>, b: seq<T>, c: seq<T>)
    ensures (a + b) + c == a + (b + c)
  {
  }

  lemma LeadingIntNeg(ds: string, rest: string)
    requires |ds| > 0 && AllDigits(ds)
    requires rest == [] || !IsDigit(rest[0])
    ensures LeadingInt("-" + (ds + rest)) == -(DigitsValue(ds) as int)
  {
    LeadingDigitsOf(ds, rest);
    assert ("-" + (ds + rest))[1..] == ds + rest;
  }

  lemma LeadingIntPos(ds: string, rest: string)
    requires |ds| > 0 && AllDigits(ds)
    requires rest == [] || !IsDigit(rest[0])
    ensures LeadingInt(ds + rest) == DigitsValue(ds)
  {
    LeadingDigitsOf(ds, rest);
    assert (ds + rest)[0] == ds[0];
  }

  lemma NegativeRoundTrip(n: int, rest: string)
    requires n < 0
    requires rest == [] || !IsDigit(rest[0])
    ensures LeadingInt(DecimalString(n) + rest) == n
  {
    var m: nat := -n;
    var ds := NatToString(m);
    NatToStringValue(m);
    assert DigitsValue(ds) == m;
    LeadingIntNeg(ds, rest);
    ConcatAssoc("-", ds, rest);
    assert DecimalString(n) == "-" + ds;
    assert DecimalString(n) + rest == "-" + (ds + rest);
  }

  lemma NonNegativeRoundTrip(n: int, rest: string)
    requires n >= 0
    requires rest == [] || !IsDigit(rest[0])
    ensures LeadingInt(DecimalString(n) + rest) == n
  {
    NatToStringValue(n);
    LeadingIntPos(NatToString(n), rest);
  }

  /** `str(n)` followed by anything that does not begin with a digit reads
      back as `n`. */
  lemma DecimalRoundTrip(n: int, rest: string)
    requires rest == [] || !IsDigit(rest[0])
    ensures LeadingInt(DecimalString(n) + rest) == n
  {
    if n < 0 {
      NegativeRoundTrip(n, rest);
    } else {
      NonNegativeRoundTrip(n, rest);
    }
  }
}
