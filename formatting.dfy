/**
 * The part of C's `sprintf`/`sscanf` that the wire protocol uses: format strings made of literal
 * characters, white space and `%zd` holes. A format is read as a sequence of directives:
 *   - `Lit(c)`: the input character must be exactly `c`;
 *   - `Blank`: any white-space character of the format skips zero or more white-space characters of the input;
 *   - `Num`: `%zd` skips white space and converts a maximal, non-empty run of decimal digits.
 * `Scan` returns the values converted before the first mismatch, so `|Scan(..)|` is what `sscanf`
 * returns; input left over after the last directive is ignored, as `sscanf` ignores it.
 */
module Formatting {

  predicate IsDigit(c: char) { '0' <= c <= '9' }

  predicate IsSpace(c: char) {
    c == ' ' || c == '\t' || c == '\n' || c == '\r' || c == '\U{000B}' || c == '\U{000C}'
  }

  function DigitChar(d: nat): (c: char)
    requires d < 10
    ensures IsDigit(c) && c as int - '0' as int == d
  {
    ('0' as int + d) as char
  }

  function DigitValue(c: char): nat
    requires IsDigit(c)
  {
    c as int - '0' as int
  }

  /** The decimal spelling of `n`, without sign or leading zeros (what `%zd` prints). */
  function NatToString(n: nat): (s: string)
    ensures |s| > 0 && forall i :: 0 <= i < |s| ==> IsDigit(s[i])
  {
    if n < 10 then [DigitChar(n)] else NatToString(n / 10) + [DigitChar(n % 10)]
  }

  /** The value of a string of decimal digits. */
  function DigitsValue(s: string): nat
    requires forall i :: 0 <= i < |s| ==> IsDigit(s[i])
  {
    if s == [] then 0 else DigitsValue(s[..|s| - 1]) * 10 + DigitValue(s[|s| - 1])
  }

  /** The length of the run of digits at the front of `s`. */
  function DigitRun(s: string): (k: nat)
    ensures k <= |s|
    ensures forall i :: 0 <= i < k ==> IsDigit(s[i])
    ensures k < |s| ==> !IsDigit(s[k])
  {
    if s != [] && IsDigit(s[0]) then 1 + DigitRun(s[1..]) else 0
  }

  /** `s` without its leading white space. */
  function SkipSpace(s: string): (t: string)
    ensures |t| <= |s| && t == s[|s| - |t|..]
    ensures t == [] || !IsSpace(t[0])
  {
    if s != [] && IsSpace(s[0]) then SkipSpace(s[1..]) else s
  }

  datatype Directive = Lit(c: char) | Blank | Num

  predicate StartsHole(f: string) { |f| >= 3 && f[0] == '%' && f[1] == 'z' && f[2] == 'd' }

  /** How `sscanf` reads a format string. */
  function Directives(fmt: string): seq<Directive>
  {
    if fmt == [] then []
    else if StartsHole(fmt) then [Num] + Directives(fmt[3..])
    else if IsSpace(fmt[0]) then [Blank] + Directives(fmt[1..])
    else [Lit(fmt[0])] + Directives(fmt[1..])
  }

  /** The number of `%zd` holes in a format string. */
  function Holes(fmt: string): nat
  {
    if fmt == [] then 0
    else if StartsHole(fmt) then 1 + Holes(fmt[3..])
    else Holes(fmt[1..])
  }

  /** `sprintf(fmt, args...)`: every hole is replaced by the decimal spelling of the next argument. */
  function Sprintf(fmt: string, args: seq<nat>): string
    requires |args| == Holes(fmt)
  {
    if fmt == [] then []
    else if StartsHole(fmt) then NatToString(args[0]) + Sprintf(fmt[3..], args[1..])
    else [fmt[0]] + Sprintf(fmt[1..], args)
  }

  /** `sscanf(s, fmt, ...)`: the values converted, in order, before the first directive that fails. */
  function Scan(ds: seq<Directive>, s: string): seq<nat>
  {
    if ds == [] then []
    else match ds[0]
      case Blank => Scan(ds[1..], SkipSpace(s))
      case Lit(c) => if s != [] && s[0] == c then Scan(ds[1..], s[1..]) else []
      case Num =>
        var t := SkipSpace(s);
        var k := DigitRun(t);
        if k == 0 then [] else [DigitsValue(t[..k])] + Scan(ds[1..], t[k..])
  }

  /** A format in which no hole is directly followed by a digit or by another hole, so that its
      printed numbers can be told apart again. */
  predicate Separated(fmt: string)
  {
    if fmt == [] then true
    else if StartsHole(fmt) then
      (fmt[3..] == [] || (!IsDigit(fmt[3]) && !StartsHole(fmt[3..]))) && Separated(fmt[3..])
    else Separated(fmt[1..])
  }

  lemma {:induction false} DigitRunOfNumber(n: nat, t: string)
    requires t == [] || !IsDigit(t[0])
    ensures DigitRun(NatToString(n) + t) == |NatToString(n)|
  {
    var s := NatToString(n);
    DigitRunPrefix(s, t);
  }

  lemma {:induction false} DigitRunPrefix(s: string, t: string)
    requires forall i :: 0 <= i < |s| ==> IsDigit(s[i])
    requires t == [] || !IsDigit(t[0])
    ensures DigitRun(s + t) == |s|
    decreases |s|
  {
    if s == [] {
      assert s + t == t;
    } else {
      assert (s + t)[1..] == s[1..] + t;
      DigitRunPrefix(s[1..], t);
    }
  }

  /** Reading back a printed number gives the number. */
  lemma {:induction false} DigitsValueOfNumber(n: nat)
    ensures DigitsValue(NatToString(n)) == n
  {
    if n >= 10 {
      var s := NatToString(n);
      assert s[..|s| - 1] == NatToString(n / 10);
      DigitsValueOfNumber(n / 10);
    }
  }

  lemma SkipSpaceIdempotent(s: string)
    ensures SkipSpace(SkipSpace(s)) == SkipSpace(s)
  {
  }

  /** Directives that start by skipping white space do not care how much of it was skipped before. */
  lemma {:induction false} ScanAfterSkip(ds: seq<Directive>, s: string)
    requires ds == [] || ds[0].Blank? || ds[0].Num?
    ensures Scan(ds, SkipSpace(s)) == Scan(ds, s)
  {
    if ds != [] {
      var t := SkipSpace(s);
      SkipSpaceIdempotent(s);
      assert SkipSpace(t) == t;
      if ds[0].Blank? {
        assert Scan(ds, t) == Scan(ds[1..], t);
        assert Scan(ds, s) == Scan(ds[1..], t);
      } else {
        var k := DigitRun(t);
        assert Scan(ds, t) == if k == 0 then [] else [DigitsValue(t[..k])] + Scan(ds[1..], t[k..]);
        assert Scan(ds, s) == if k == 0 then [] else [DigitsValue(t[..k])] + Scan(ds[1..], t[k..]);
      }
    }
  }

  lemma {:induction false} SprintfStartsWithLiteral(fmt: string, args: seq<nat>, rest: string)
    requires fmt != [] && !StartsHole(fmt) && |args| == Holes(fmt)
    ensures (Sprintf(fmt, args) + rest)[0] == fmt[0]
  {
  }

  lemma {:induction false} HolesOfDirectives(fmt: string)
    ensures Directives(fmt) == [] <==> fmt == []
  {
  }

  /** Printing with a format and scanning the result with the same format gives the arguments back,
      whatever non-digit text follows the printed line. */
  lemma {:induction false} ScanSprintf(fmt: string, args: seq<nat>, rest: string)
    requires |args| == Holes(fmt) && Separated(fmt)
    requires rest == [] || !IsDigit(rest[0])
    ensures Scan(Directives(fmt), Sprintf(fmt, args) + rest) == args
    decreases |fmt|
  {
    if fmt == [] {
    } else if StartsHole(fmt) {
      ScanSprintf(fmt[3..], args[1..], rest);
      ScanHoleStep(fmt, args, rest);
    } else if IsSpace(fmt[0]) {
      ScanSprintf(fmt[1..], args, rest);
      ScanBlankStep(fmt, args, rest);
    } else {
      ScanSprintf(fmt[1..], args, rest);
      ScanLitStep(fmt, args, rest);
    }
  }

  lemma {:induction false} ScanHoleStep(fmt: string, args: seq<nat>, rest: string)
    requires StartsHole(fmt) && |args| == Holes(fmt) && Separated(fmt)
    requires rest == [] || !IsDigit(rest[0])
    ensures Scan(Directives(fmt), Sprintf(fmt, args) + rest)
         == [args[0]] + Scan(Directives(fmt[3..]), Sprintf(fmt[3..], args[1..]) + rest)
  {
    var tail := fmt[3..];
    var after := Sprintf(tail, args[1..]) + rest;
    if tail != [] {
      SprintfStartsWithLiteral(tail, args[1..], rest);
    }
    ScanNumber(Directives(tail), args[0], after);
    SprintfHole(fmt, args, rest);
  }

  /** A format that starts with a hole prints the first argument, then the rest of the format. */
  lemma SprintfHole(fmt: string, args: seq<nat>, rest: string)
    requires StartsHole(fmt) && |args| == Holes(fmt)
    ensures Sprintf(fmt, args) + rest == NatToString(args[0]) + (Sprintf(fmt[3..], args[1..]) + rest)
    ensures Directives(fmt) == [Num] + Directives(fmt[3..])
  {
    assert Sprintf(fmt, args) == NatToString(args[0]) + Sprintf(fmt[3..], args[1..]);
  }

  /** A `%zd` directive reads back a printed number that is followed by a non-digit. */
  lemma {:induction false} ScanNumber(ds: seq<Directive>, n: nat, after: string)
    requires after == [] || !IsDigit(after[0])
    ensures Scan([Num] + ds, NatToString(n) + after) == [n] + Scan(ds, after)
  {
    var num := NatToString(n);
    var input := num + after;
    assert SkipSpace(input) == input;
    DigitRunOfNumber(n, after);
    assert input[..|num|] == num;
    assert input[|num|..] == after;
    DigitsValueOfNumber(n);
    assert ([Num] + ds)[1..] == ds;
  }

  lemma {:induction false} ScanBlankStep(fmt: string, args: seq<nat>, rest: string)
    requires fmt != [] && !StartsHole(fmt) && IsSpace(fmt[0]) && |args| == Holes(fmt)
    ensures Scan(Directives(fmt), Sprintf(fmt, args) + rest)
         == Scan(Directives(fmt[1..]), Sprintf(fmt[1..], args) + rest)
  {
    var tail := fmt[1..];
    var after := Sprintf(tail, args) + rest;
    assert Sprintf(fmt, args) + rest == [fmt[0]] + after;
    assert SkipSpace([fmt[0]] + after) == SkipSpace(after) by {
      assert ([fmt[0]] + after)[1..] == after;
    }
    var ds := Directives(tail);
    if ds == [] || ds[0].Blank? || ds[0].Num? {
      ScanAfterSkip(ds, after);
    } else {
      HolesOfDirectives(tail);
      assert !StartsHole(tail) && !IsSpace(tail[0]);
      SprintfStartsWithLiteral(tail, args, rest);
      assert SkipSpace(after) == after;
    }
    assert Directives(fmt) == [Blank] + ds;
  }

  lemma {:induction false} ScanLitStep(fmt: string, args: seq<nat>, rest: string)
    requires fmt != [] && !StartsHole(fmt) && !IsSpace(fmt[0]) && |args| == Holes(fmt)
    ensures Scan(Directives(fmt), Sprintf(fmt, args) + rest)
         == Scan(Directives(fmt[1..]), Sprintf(fmt[1..], args) + rest)
  {
    var after := Sprintf(fmt[1..], args) + rest;
    assert Sprintf(fmt, args) + rest == [fmt[0]] + after;
    assert ([fmt[0]] + after)[1..] == after;
    assert Directives(fmt) == [Lit(fmt[0])] + Directives(fmt[1..]);
  }

  /** Literal text in front of a format adds no hole and keeps the holes apart. */
  lemma {:induction false} LiteralPrefix(p: string, f: string)
    requires '%' !in p
    ensures Holes(p + f) == Holes(f) && (Separated(p + f) <==> Separated(f))
    decreases |p|
  {
    if p != [] {
      assert (p + f)[0] == p[0] && p[0] in p;
      assert (p + f)[1..] == p[1..] + f;
      assert '%' !in p[1..] by { assert forall c | c in p[1..] :: c in p; }
      LiteralPrefix(p[1..], f);
    } else {
      assert p + f == f;
    }
  }

  /** A hole in front of a format adds one hole, separated when the format does not go on with a
      digit or another hole. */
  lemma HoleFirst(f: string)
    ensures Holes("%zd" + f) == 1 + Holes(f)
    ensures Separated("%zd" + f) <==> (f == [] || (!IsDigit(f[0]) && !StartsHole(f))) && Separated(f)
  {
    assert ("%zd" + f)[3..] == f;
  }

  /** A format whose first character is a literal rejects any input that starts with another character. */
  lemma ScanLiteralMismatch(fmt: string, s: string)
    requires fmt != [] && !StartsHole(fmt) && !IsSpace(fmt[0])
    requires s == [] || s[0] != fmt[0]
    ensures Scan(Directives(fmt), s) == []
  {
    assert Directives(fmt) == [Lit(fmt[0])] + Directives(fmt[1..]);
  }
}
