/** The JavaScript string primitives the site relies on: `String.prototype.trim`,
    ASCII case mapping, decimal rendering of counts (`String(n)` and template
    interpolation) and `parts.filter(Boolean).join(sep)`. */
module Text {
  import opened Optional

  /** A possibly-missing string JavaScript counts as true: present and not
      empty. */
  predicate Present(t: Option<string>) {
    t.Some? && t.value != ""
  }

  /** The characters `trim` removes, by code point: ECMAScript WhiteSpace
      (TAB, VT, FF, SP, NBSP, ZWNBSP and the Unicode Zs category) and
      LineTerminator (LF, CR, LS, PS). */
  predicate IsJsSpace(c: char) {
    var n := c as int;
    || 9 <= n <= 13 || n == 0x20 || n == 0xA0 || n == 0x1680 || 0x2000 <= n <= 0x200A
    || n == 0x2028 || n == 0x2029 || n == 0x202F || n == 0x205F || n == 0x3000 || n == 0xFEFF
  }

  predicate AllSpace(s: string) {
    forall i :: 0 <= i < |s| ==> IsJsSpace(s[i])
  }

  /** Neither end of `s` is whitespace (an empty string qualifies). */
  predicate IsTrimmed(s: string) {
    s == [] || (!IsJsSpace(s[0]) && !IsJsSpace(s[|s| - 1]))
  }

  /** Drops leading whitespace: the result is the suffix left after a
      whitespace-only prefix, and it does not itself start with whitespace. */
  function TrimStart(s: string): (r: string)
    ensures |r| <= |s| && r == s[|s| - |r|..]
    ensures AllSpace(s[..|s| - |r|])
    ensures r == [] || !IsJsSpace(r[0])
    decreases |s|
  {
    if |s| > 0 && IsJsSpace(s[0]) then
      var r := TrimStart(s[1..]);
      assert s[..|s| - |r|] == [s[0]] + s[1..][..|s| - 1 - |r|];
      r
    else
      s
  }

  /** Drops trailing whitespace: the result is the prefix left before a
      whitespace-only suffix, and it does not itself end with whitespace. */
  function TrimEnd(s: string): (r: string)
    ensures |r| <= |s| && r == s[..|r|]
    ensures AllSpace(s[|r|..])
    ensures r == [] || !IsJsSpace(r[|r| - 1])
    decreases |s|
  {
    if |s| > 0 && IsJsSpace(s[|s| - 1]) then
      var r := TrimEnd(s[..|s| - 1]);
      assert s[|r|..] == s[..|s| - 1][|r|..] + [s[|s| - 1]];
      r
    else
      s
  }

  /** `s.trim()`: `s` without leading and trailing whitespace. It is empty
      exactly when `s` is all whitespace. */
  function Trim(s: string): (r: string)
    ensures IsTrimmed(r)
    ensures r == [] <==> AllSpace(s)
  {
    var a := TrimStart(s);
    assert AllSpace(s) ==> a == [];
    TrimEnd(a)
  }

  /** How much leading whitespace `trim` drops. */
  function LeadingSpace(s: string): nat {
    |s| - |TrimStart(s)|
  }

  /** The trim is the middle slice of `s` between a whitespace-only prefix
      and a whitespace-only suffix. */
  lemma TrimIsMiddle(s: string)
    ensures var r, i := Trim(s), LeadingSpace(s);
      && i + |r| <= |s| && r == s[i..i + |r|]
      && AllSpace(s[..i]) && AllSpace(s[i + |r|..])
  {
    var a := TrimStart(s);
    var r := TrimEnd(a);
    assert Trim(s) == r && LeadingSpace(s) == |s| - |a|;
    MiddleSlice(s, a, r);
  }

  lemma MiddleSlice(s: string, a: string, r: string)
    requires |a| <= |s| && a == s[|s| - |a|..] && AllSpace(s[..|s| - |a|])
    requires |r| <= |a| && r == a[..|r|] && AllSpace(a[|r|..])
    ensures var i := |s| - |a|;
      && i + |r| <= |s| && r == s[i..i + |r|]
      && AllSpace(s[..i]) && AllSpace(s[i + |r|..])
  {
    SuffixSlices(s, |s| - |a|, |r|);
  }

  /** Slicing a suffix of `s` is slicing `s` further along. */
  lemma SuffixSlices(s: string, i: nat, n: nat)
    requires i + n <= |s|
    ensures s[i..][..n] == s[i..i + n]
    ensures s[i..][n..] == s[i + n..]
  {
  }

  /** A string without surrounding whitespace is its own trim. */
  lemma TrimOfTrimmed(s: string)
    requires IsTrimmed(s)
    ensures Trim(s) == s
  {
    assert TrimStart(s) == s;
  }

  // ---------------------------------------------------------------- case

  /** `toLowerCase` on one character; only ASCII letters are mapped. */
  function LowerChar(c: char): char {
    if 'A' <= c <= 'Z' then (c as int + 32) as char else c
  }

  /** `toUpperCase` on one character; only ASCII letters are mapped. */
  function UpperChar(c: char): char {
    if 'a' <= c <= 'z' then (c as int - 32) as char else c
  }

  function Lower(s: string): (r: string)
    ensures |r| == |s|
  {
    seq(|s|, i requires 0 <= i < |s| => LowerChar(s[i]))
  }

  function Upper(s: string): (r: string)
    ensures |r| == |s|
  {
    seq(|s|, i requires 0 <= i < |s| => UpperChar(s[i]))
  }

  /** Lower-casing twice is lower-casing once, so a stored lower-case address
      compares equal to its own `toLowerCase()`. */
  lemma LowerIdempotent(s: string)
    ensures Lower(Lower(s)) == Lower(s)
  {
  }

  // ------------------------------------------------------------- numbers

  predicate IsDigit(c: char) {
    '0' <= c <= '9'
  }

  predicate AllDigits(s: string) {
    forall i :: 0 <= i < |s| ==> IsDigit(s[i])
  }

  function DigitChar(d: nat): (c: char)
    requires d < 10
    ensures IsDigit(c)
  {
    (d + 48) as char
  }

  function DigitValue(c: char): nat
    requires IsDigit(c)
  {
    c as int - 48
  }

  /** Decimal rendering of a count, as `String(n)` and `${n}` produce it:
      digits only, at least one, and no leading zero except for 0 itself. */
  function NatToString(n: nat): (r: string)
    ensures |r| >= 1 && AllDigits(r)
    ensures r[0] == '0' ==> n == 0
    decreases n
  {
    if n < 10 then [DigitChar(n)] else NatToString(n / 10) + [DigitChar(n % 10)]
  }

  /** Reads a run of decimal digits back as a number. */
  function ParseNat(s: string): nat
    requires AllDigits(s)
  {
    if s == [] then 0 else ParseNat(s[..|s| - 1]) * 10 + DigitValue(s[|s| - 1])
  }

  /** Rendering a count and reading it back gives the count. */
  lemma {:induction false} ParseNatToString(n: nat)
    ensures ParseNat(NatToString(n)) == n
    decreases n
  {
    var s := NatToString(n);
    if n < 10 {
      assert s[..0] == [];
    } else {
      ParseNatToString(n / 10);
      assert s[..|s| - 1] == NatToString(n / 10);
    }
  }

  /** Distinct counts render differently. */
  lemma NatToStringInjective(m: nat, n: nat)
    requires NatToString(m) == NatToString(n)
    ensures m == n
  {
    ParseNatToString(m);
    ParseNatToString(n);
  }

  // --------------------------------------------------------- join/filter

  /** `parts.filter(Boolean)` on strings: drops the empty ones, keeps the
      others in order. */
  function KeepNonEmpty(parts: seq<string>): (r: seq<string>)
    ensures |r| <= |parts|
    ensures forall i :: 0 <= i < |r| ==> r[i] != ""
    ensures (forall i :: 0 <= i < |parts| ==> parts[i] != "") ==> r == parts
  {
    if parts == [] then []
    else (if parts[0] == "" then [] else [parts[0]]) + KeepNonEmpty(parts[1..])
  }

  /** `parts.join(sep)`. */
  function Join(parts: seq<string>, sep: string): string {
    if |parts| == 0 then ""
    else if |parts| == 1 then parts[0]
    else parts[0] + sep + Join(parts[1..], sep)
  }

  /** Joining puts the separator between consecutive parts and nowhere else. */
  lemma JoinCons(head: string, tail: seq<string>, sep: string)
    requires tail != []
    ensures Join([head] + tail, sep) == head + sep + Join(tail, sep)
  {
    assert ([head] + tail)[1..] == tail;
  }

  lemma JoinSmall(a: string, b: string, c: string, d: string, sep: string)
    ensures Join([a], sep) == a
    ensures Join([a, b], sep) == a + sep + b
    ensures Join([a, b, c], sep) == a + sep + b + sep + c
    ensures Join([a, b, c, d], sep) == a + sep + b + sep + c + sep + d
  {
    JoinCons(c, [d], sep);
    assert [c, d] == [c] + [d];
    JoinCons(b, [c, d], sep);
    assert [b, c, d] == [b] + [c, d];
    JoinCons(a, [b, c, d], sep);
    assert [a, b, c, d] == [a] + [b, c, d];
    JoinCons(b, [c], sep);
    assert [b, c] == [b] + [c];
    JoinCons(a, [b, c], sep);
    assert [a, b, c] == [a] + [b, c];
    JoinCons(a, [b], sep);
    assert [a, b] == [a] + [b];
  }

  /** Filtering two strings keeps the non-empty ones in order. */
  lemma KeepTwo(a: string, b: string)
    ensures KeepNonEmpty([a, b]) == (if a != "" then [a] else []) + (if b != "" then [b] else [])
  {
    assert [a, b][1..] == [b] && [b][1..] == [];
  }

  /** Two pieces with a space between, an empty piece and its space left
      out. */
  function SpaceJoin(a: string, b: string): string {
    if a == "" then b else if b == "" then a else a + " " + b
  }

  /** Filtering three pieces and joining them with spaces puts one space
      between consecutive non-empty pieces and nowhere else. */
  lemma JoinKeepThree(a: string, b: string, c: string)
    ensures Join(KeepNonEmpty([a, b, c]), " ") == SpaceJoin(SpaceJoin(a, b), c)
  {
    var kept := (if a != "" then [a] else []) + ((if b != "" then [b] else []) + (if c != "" then [c] else []));
    KeepTwo(b, c);
    assert [a, b, c][1..] == [b, c];
    assert KeepNonEmpty([a, b, c]) == kept;
    JoinSmall(a, b, c, "", " ");
    JoinSmall(a, c, "", "", " ");
    JoinSmall(b, c, "", "", " ");
    if a != "" && b != "" && c != "" {
      assert kept == [a, b, c];
    } else if a != "" && b != "" {
      assert kept == [a, b];
    } else if a != "" && c != "" {
      assert kept == [a, c];
    } else if b != "" && c != "" {
      assert kept == [b, c];
    } else if a != "" {
      assert kept == [a];
    } else if b != "" {
      assert kept == [b];
    } else if c != "" {
      assert kept == [c];
    } else {
      assert kept == [];
    }
  }

  /** Joining trimmed pieces with a space gives a trimmed string. */
  lemma SpaceJoinTrimmed(a: string, b: string)
    requires IsTrimmed(a) && IsTrimmed(b)
    ensures IsTrimmed(SpaceJoin(a, b))
  {
    if a != "" && b != "" {
      var j := a + " " + b;
      assert j[0] == a[0] && j[|j| - 1] == b[|b| - 1];
    }
  }

  /** Every part a filter keeps was non-empty, and every non-empty part is
      kept. */
  lemma {:induction false} KeepNonEmptyKeeps(parts: seq<string>, i: nat)
    requires i < |parts| && parts[i] != ""
    ensures parts[i] in KeepNonEmpty(parts)
    decreases i
  {
    if i > 0 {
      KeepNonEmptyKeeps(parts[1..], i - 1);
      assert parts[1..][i - 1] == parts[i];
    }
  }

  lemma AllSpaceConcat(a: string, b: string)
    ensures AllSpace(a + b) <==> AllSpace(a) && AllSpace(b)
  {
    if AllSpace(a + b) {
      assert forall k :: 0 <= k < |a| ==> a[k] == (a + b)[k];
      assert forall k :: 0 <= k < |b| ==> b[k] == (a + b)[|a| + k];
    }
  }

  /** A join is whitespace only when every part is. */
  lemma {:induction false} JoinAllSpace(parts: seq<string>, sep: string)
    requires AllSpace(Join(parts, sep))
    ensures forall i :: 0 <= i < |parts| ==> AllSpace(parts[i])
    ensures forall p :: p in parts ==> AllSpace(p)
    decreases |parts|
  {
    if |parts| >= 2 {
      AllSpaceConcat(parts[0] + sep, Join(parts[1..], sep));
      AllSpaceConcat(parts[0], sep);
      JoinAllSpace(parts[1..], sep);
      assert forall i :: 1 <= i < |parts| ==> parts[i] == parts[1..][i - 1];
    }
  }

  /** Trimming keeps a tail that has no whitespace in it. */
  lemma TrimKeepsTail(s: string, tail: string)
    requires 1 <= |tail| <= |s| && s[|s| - |tail|..] == tail
    requires forall k :: 0 <= k < |tail| ==> !IsJsSpace(tail[k])
    ensures |tail| <= |Trim(s)| && Trim(s)[|Trim(s)| - |tail|..] == tail
  {
    var a := TrimStart(s);
    TrimStartKeepsTail(s, tail);
    assert a[|a| - 1] == tail[|tail| - 1];
    assert TrimEnd(a) == a;
  }

  lemma {:induction false} TrimStartKeepsTail(s: string, tail: string)
    requires 1 <= |tail| <= |s| && s[|s| - |tail|..] == tail
    requires forall k :: 0 <= k < |tail| ==> !IsJsSpace(tail[k])
    ensures |tail| <= |TrimStart(s)| && TrimStart(s)[|TrimStart(s)| - |tail|..] == tail
    decreases |s|
  {
    if IsJsSpace(s[0]) {
      assert |s| > |tail| by { assert s[|s| - |tail|..][0] == tail[0]; }
      assert s[1..][|s| - 1 - |tail|..] == tail;
      TrimStartKeepsTail(s[1..], tail);
    }
  }
}
