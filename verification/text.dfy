/**
  The string operations the index relies on: decimal rendering of a list
  number, `str.splitlines` (line breaks are '\n' only in this model),
  `str.join` and `str.strip`.
 */
module Text {

  predicate IsDigit(c: char)
  {
    '0' <= c <= '9'
  }

  function DigitChar(d: nat): (c: char)
    requires d < 10
    ensures IsDigit(c)
    ensures c == '0' <==> d == 0
  {
    (48 + d) as char
  }

  function DigitValue(c: char): (d: nat)
    requires IsDigit(c)
    ensures d < 10 && DigitChar(d) == c
  {
    c as int - 48
  }

  ghost predicate AllDigits(s: string)
  {
    forall i :: 0 <= i < |s| ==> IsDigit(s[i])
  }

  /** Python's `f"{n}"` for a non-negative integer. */
  function Decimal(n: nat): (s: string)
    ensures |s| >= 1 && AllDigits(s)
    ensures s[0] == '0' <==> n == 0
  {
    if n < 10 then [DigitChar(n)] else Decimal(n / 10) + [DigitChar(n % 10)]
  }

  /** Reads a run of decimal digits back as a number. */
  function ParseDecimal(s: string): nat
    requires AllDigits(s)
  {
    if s == [] then 0 else ParseDecimal(s[..|s| - 1]) * 10 + DigitValue(s[|s| - 1])
  }

  /** The number written into a listing reads back as the same number. */
  lemma {:induction false} DecimalRoundTrip(n: nat)
    ensures ParseDecimal(Decimal(n)) == n
  {
    var s := Decimal(n);
    if n >= 10 {
      assert s[..|s| - 1] == Decimal(n / 10);
      DecimalRoundTrip(n / 10);
    }
  }

  /** `sep.join(parts)`. */
  function Join(sep: string, parts: seq<string>): string
  {
    if |parts| == 0 then ""
    else if |parts| == 1 then parts[0]
    else parts[0] + sep + Join(sep, parts[1..])
  }

  lemma JoinTwo(sep: string, x: string, y: string)
    ensures Join(sep, [x, y]) == x + sep + y
  {
    assert [x, y][1..] == [y];
  }

  /** `t.split("\n")`: always at least one piece, none containing '\n'. */
  function SplitOn(t: string): (parts: seq<string>)
    ensures |parts| >= 1
    ensures forall i :: 0 <= i < |parts| ==> '\n' !in parts[i]
  {
    if t == [] then [""]
    else
      var rest := SplitOn(t[1..]);
      if t[0] == '\n' then [""] + rest else [[t[0]] + rest[0]] + rest[1..]
  }

  /** `t.splitlines()`: like `SplitOn`, but "" has no lines and a final '\n' opens no new line. */
  function SplitLines(t: string): seq<string>
  {
    if t == [] then []
    else if t[|t| - 1] == '\n' then SplitOn(t[..|t| - 1])
    else SplitOn(t)
  }

  /** Joining the pieces of a split with '\n' gives back the text. */
  lemma {:induction false} JoinSplitOn(t: string)
    ensures Join("\n", SplitOn(t)) == t
  {
    if t != [] {
      var rest := SplitOn(t[1..]);
      JoinSplitOn(t[1..]);
      if t[0] != '\n' {
        if |rest| == 1 {
          assert t == [t[0]] + rest[0];
        } else {
          assert rest == [rest[0]] + rest[1..];
          assert Join("\n", rest) == rest[0] + "\n" + Join("\n", rest[1..]);
          assert t == [t[0]] + t[1..];
        }
      } else {
        assert t == "\n" + t[1..];
      }
    }
  }

  /** A piece without '\n' stays glued to the first piece of what follows it. */
  lemma {:induction false} SplitOnPrefix(p: string, s: string)
    requires '\n' !in p
    ensures SplitOn(p + s) == [p + SplitOn(s)[0]] + SplitOn(s)[1..]
    decreases |p|
  {
    if p != [] {
      assert (p + s)[0] == p[0];
      assert (p + s)[1..] == p[1..] + s;
      SplitOnPrefix(p[1..], s);
      assert [p[0]] + (p[1..] + SplitOn(s)[0]) == p + SplitOn(s)[0];
    } else {
      assert p + s == s;
      assert p + SplitOn(s)[0] == SplitOn(s)[0];
      assert SplitOn(s) == [SplitOn(s)[0]] + SplitOn(s)[1..];
    }
  }

  /** Splitting pieces that hold no '\n' after joining them with '\n' gives the pieces back. */
  lemma {:induction false} SplitOnJoin(parts: seq<string>)
    requires |parts| >= 1
    requires forall i :: 0 <= i < |parts| ==> '\n' !in parts[i]
    ensures SplitOn(Join("\n", parts)) == parts
  {
    if |parts| == 1 {
      SplitOnPrefix(parts[0], "");
      assert parts[0] + "" == parts[0];
    } else {
      var tail := Join("\n", parts[1..]);
      SplitOnJoin(parts[1..]);
      assert Join("\n", parts) == parts[0] + ("\n" + tail);
      SplitOnPrefix(parts[0], "\n" + tail);
      assert ("\n" + tail)[0] == '\n';
      assert ("\n" + tail)[1..] == tail;
      assert SplitOn("\n" + tail) == [""] + parts[1..];
      assert parts[0] + "" == parts[0];
      assert parts == [parts[0]] + parts[1..];
    }
  }

  /** Every '\n' of `t` replaced by ' '. */
  function SpacedOut(t: string): (r: string)
    ensures |r| == |t|
    ensures forall i :: 0 <= i < |t| ==> r[i] == (if t[i] == '\n' then ' ' else t[i])
  {
    if t == [] then [] else [if t[0] == '\n' then ' ' else t[0]] + SpacedOut(t[1..])
  }

  lemma {:induction false} JoinSpaceSplitOn(t: string)
    ensures Join(" ", SplitOn(t)) == SpacedOut(t)
  {
    if t != [] {
      var rest := SplitOn(t[1..]);
      JoinSpaceSplitOn(t[1..]);
      if t[0] != '\n' && |rest| > 1 {
        assert rest == [rest[0]] + rest[1..];
        assert Join(" ", rest) == rest[0] + " " + Join(" ", rest[1..]);
      }
    }
  }

  /** `' '.join(t.splitlines())`: how a node's text is written into a listing entry, on one line. */
  function OneLine(t: string): (r: string)
    ensures '\n' !in r
  {
    var u := if t != [] && t[|t| - 1] == '\n' then t[..|t| - 1] else t;
    JoinSpaceSplitOn(u);
    assert forall i :: 0 <= i < |u| ==> SpacedOut(u)[i] != '\n';
    Join(" ", SplitLines(t))
  }

  /**
    A listing entry is the node's text with a single trailing '\n' dropped
    and every other '\n' turned into a space.
   */
  lemma {:induction false} OneLineSpec(t: string)
    ensures OneLine(t) == SpacedOut(if t != [] && t[|t| - 1] == '\n' then t[..|t| - 1] else t)
  {
    var u := if t != [] && t[|t| - 1] == '\n' then t[..|t| - 1] else t;
    if t != [] {
      assert SplitLines(t) == SplitOn(u);
      JoinSpaceSplitOn(u);
    }
  }

  /** The characters for which Python's `str.isspace()` holds. */
  predicate IsSpace(c: char)
  {
    || '\U{9}' <= c <= '\U{D}'
    || '\U{1C}' <= c <= '\U{20}'
    || c == '\U{85}' || c == '\U{A0}' || c == '\U{1680}'
    || '\U{2000}' <= c <= '\U{200A}'
    || c == '\U{2028}' || c == '\U{2029}' || c == '\U{202F}' || c == '\U{205F}' || c == '\U{3000}'
  }

  /** `s.lstrip()`: the suffix of `s` left after its leading whitespace. */
  function StripStart(s: string): (r: string)
    ensures |r| <= |s| && r == s[|s| - |r|..]
    ensures forall k :: 0 <= k < |s| - |r| ==> IsSpace(s[k])
    ensures r == [] || !IsSpace(r[0])
  {
    if s != [] && IsSpace(s[0]) then StripStart(s[1..]) else s
  }

  /** `s.rstrip()`: the prefix of `s` left after its trailing whitespace. */
  function StripEnd(s: string): (r: string)
    ensures |r| <= |s| && r == s[..|r|]
    ensures forall k :: |r| <= k < |s| ==> IsSpace(s[k])
    ensures r == [] || !IsSpace(r[|r| - 1])
  {
    if s != [] && IsSpace(s[|s| - 1]) then StripEnd(s[..|s| - 1]) else s
  }

  /** `s.strip()`. */
  function Strip(s: string): (r: string)
    ensures exists i, j :: 0 <= i <= j <= |s| && r == s[i..j]
                        && (forall k :: 0 <= k < i ==> IsSpace(s[k]))
                        && (forall k :: j <= k < |s| ==> IsSpace(s[k]))
    ensures r == [] || (!IsSpace(r[0]) && !IsSpace(r[|r| - 1]))
  {
    var a := StripStart(s);
    var r := StripEnd(a);
    var i := |s| - |a|;
    assert r == s[i..i + |r|];
    r
  }

  /** `strip` leaves a string alone exactly when neither end is whitespace. */
  lemma StripFixed(s: string)
    ensures Strip(s) == s <==> s == [] || (!IsSpace(s[0]) && !IsSpace(s[|s| - 1]))
  {
  }

  /** Stripping twice strips nothing more. */
  lemma StripIdempotent(s: string)
    ensures Strip(Strip(s)) == Strip(s)
  {
    StripFixed(Strip(s));
  }
}
