/** motorwayOf: the first whole-word, case-insensitive match of `SH\s?\d{1,2}[A-B]?` in a
    camera name, with whitespace removed and upper-cased; "" when there is none. */
module Motorway {
  import opened Js

  /** A character of `\w` (regular expressions without the `u` flag). */
  predicate IsWordChar(c: char) {
    ('a' <= c <= 'z') || ('A' <= c <= 'Z') || ('0' <= c <= '9') || c == '_'
  }

  predicate IsDigit(c: char) {
    '0' <= c <= '9'
  }

  /** A character of `\s`: the ECMAScript white space and line terminators. */
  predicate IsSpace(c: char) {
    var n := c as int;
    || (0x09 <= n <= 0x0D) || n == 0x20 || n == 0xA0 || n == 0x1680
    || (0x2000 <= n <= 0x200A) || n == 0x2028 || n == 0x2029 || n == 0x202F
    || n == 0x205F || n == 0x3000 || n == 0xFEFF
  }

  /** `[A-B]` under the `i` flag. */
  predicate IsSuffixLetter(c: char) {
    c == 'A' || c == 'B' || c == 'a' || c == 'b'
  }

  /** Text matched by `\d{1,2}[A-B]?`. */
  predicate IsNumberPart(u: string) {
    || (|u| == 1 && IsDigit(u[0]))
    || (|u| == 2 && IsDigit(u[0]) && (IsDigit(u[1]) || IsSuffixLetter(u[1])))
    || (|u| == 3 && IsDigit(u[0]) && IsDigit(u[1]) && IsSuffixLetter(u[2]))
  }

  /** Text matched by `SH\s?\d{1,2}[A-B]?` under the `i` flag. */
  predicate IsCodeText(t: string) {
    && |t| >= 3
    && (t[0] == 'S' || t[0] == 's')
    && (t[1] == 'H' || t[1] == 'h')
    && (IsNumberPart(t[2..]) || (IsSpace(t[2]) && IsNumberPart(t[3..])))
  }

  /** The pattern, with both `\b` anchors, matches `s[i..e]`. The match starts and ends with a
      word character, so each `\b` says that the neighbouring character is not one. */
  predicate MatchesAt(s: string, i: int, e: int) {
    && 0 <= i < e <= |s|
    && IsCodeText(s[i..e])
    && (i == 0 || !IsWordChar(s[i - 1]))
    && (e == |s| || !IsWordChar(s[e]))
  }

  /** The end of the match starting at `i`, found the way the regular expression engine's
      backtracking settles it: at most one way through the pattern can end on a boundary. */
  function MatchEnd(s: string, i: nat): (r: Option<nat>)
    requires i <= |s|
    ensures r.Some? ==> i < r.value <= |s|
  {
    if i > 0 && IsWordChar(s[i - 1]) then None
    else if i + 2 >= |s| then None
    else if !((s[i] == 'S' || s[i] == 's') && (s[i + 1] == 'H' || s[i + 1] == 'h')) then None
    else
      var k := if IsSpace(s[i + 2]) then i + 3 else i + 2;
      if k >= |s| || !IsDigit(s[k]) then None
      else
        var d := if k + 1 < |s| && IsDigit(s[k + 1]) then k + 2 else k + 1;
        var e := if d < |s| && IsSuffixLetter(s[d]) then d + 1 else d;
        if e == |s| || !IsWordChar(s[e]) then Some(e) else None
  }

  lemma MatchEndSound(s: string, i: nat)
    requires i <= |s| && MatchEnd(s, i).Some?
    ensures MatchesAt(s, i, MatchEnd(s, i).value)
  {
    var e := MatchEnd(s, i).value;
    var k := if IsSpace(s[i + 2]) then i + 3 else i + 2;
    assert s[i..e][2..] == s[i + 2..e];
    assert s[i..e][3..] == s[k..e] || k == i + 2;
    assert IsNumberPart(s[k..e]);
  }

  lemma MatchEndComplete(s: string, i: nat, e: nat)
    requires i <= |s| && MatchesAt(s, i, e)
    ensures MatchEnd(s, i) == Some(e)
  {
    var t := s[i..e];
    assert t[0] == s[i] && t[1] == s[i + 1] && t[2] == s[i + 2];
    var k := if IsSpace(s[i + 2]) then i + 3 else i + 2;
    var u := s[k..e];
    if IsSpace(s[i + 2]) {
      assert !IsNumberPart(t[2..]);
      assert t[3..] == u;
    } else {
      assert t[2..] == u;
    }
    assert IsNumberPart(u);
    assert forall j :: 0 <= j < |u| ==> u[j] == s[k + j];
  }

  /** The leftmost match at or after `from`. */
  function FirstMatch(s: string, from: nat): (r: Option<(nat, nat)>)
    requires from <= |s|
    ensures r.Some? ==> from <= r.value.0 < r.value.1 <= |s|
    decreases |s| - from
  {
    match MatchEnd(s, from)
    case Some(e) => Some((from, e))
    case None => if from == |s| then None else FirstMatch(s, from + 1)
  }

  /** No match starts at an index in `[lo, hi)`. */
  ghost predicate NoMatchIn(s: string, lo: int, hi: int) {
    forall i, e :: lo <= i < hi && MatchesAt(s, i, e) ==> false
  }

  lemma {:induction false} FirstMatchSpec(s: string, from: nat)
    requires from <= |s|
    ensures FirstMatch(s, from).None? <==> NoMatchIn(s, from, |s| + 1)
    ensures FirstMatch(s, from).Some? ==>
              var (i, e) := FirstMatch(s, from).value;
              MatchesAt(s, i, e) && NoMatchIn(s, from, i)
    decreases |s| - from
  {
    if MatchEnd(s, from).Some? {
      assert FirstMatch(s, from) == Some((from, MatchEnd(s, from).value));
      MatchEndSound(s, from);
    } else {
      NoMatchAt(s, from);
      if from < |s| {
        assert FirstMatch(s, from) == FirstMatch(s, from + 1);
        FirstMatchSpec(s, from + 1);
      }
    }
  }

  lemma NoMatchAt(s: string, i: nat)
    requires i <= |s| && MatchEnd(s, i).None?
    ensures NoMatchIn(s, i, i + 1)
  {
    forall e | MatchesAt(s, i, e) ensures false {
      MatchEndComplete(s, i, e);
    }
  }

  function RemoveSpaces(t: string): (r: string)
    ensures forall j :: 0 <= j < |r| ==> !IsSpace(r[j])
  {
    if t == [] then []
    else if IsSpace(t[0]) then RemoveSpaces(t[1..])
    else [t[0]] + RemoveSpaces(t[1..])
  }

  function UpperChar(c: char): char {
    if 'a' <= c <= 'z' then (c as int - 32) as char else c
  }

  function Upper(t: string): (r: string)
    ensures |r| == |t| && forall j :: 0 <= j < |t| ==> r[j] == UpperChar(t[j])
  {
    if t == [] then [] else [UpperChar(t[0])] + Upper(t[1..])
  }

  /** `m[1].replace(/\s+/g, '').toUpperCase()`. */
  function Canonical(t: string): string {
    Upper(RemoveSpaces(t))
  }

  /** motorwayOf returns "" or a code of the form SH + 1–2 digits + optional A/B, with no
      white space and in upper case. */
  function MotorwayOf(name: string): (r: string)
    ensures r == "" || IsMotorwayCode(r)
  {
    FirstMatchSpec(name, 0);
    match FirstMatch(name, 0)
    case Some((i, e)) =>
      CanonicalOfCode(name[i..e]);
      Canonical(name[i..e])
    case None => ""
  }

  /** The shape of a motorway code: "SH", one or two digits, then an optional "A" or "B". */
  predicate IsMotorwayCode(r: string) {
    && 3 <= |r| <= 5
    && r[0] == 'S' && r[1] == 'H' && IsDigit(r[2])
    && (|r| == 4 ==> IsDigit(r[3]) || r[3] == 'A' || r[3] == 'B')
    && (|r| == 5 ==> IsDigit(r[3]) && (r[4] == 'A' || r[4] == 'B'))
  }

  lemma CanonicalOfCode(t: string)
    requires IsCodeText(t)
    ensures IsMotorwayCode(Canonical(t))
  {
    var u := if IsSpace(t[2]) then t[3..] else t[2..];
    SpacesOfCode(t);
    UpperOfCode(t[0], t[1], u);
  }

  /** Removing white space from a matched code leaves "SH" (in either case) and the number part. */
  lemma SpacesOfCode(t: string)
    requires IsCodeText(t)
    ensures RemoveSpaces(t) == [t[0], t[1]] + (if IsSpace(t[2]) then t[3..] else t[2..])
  {
    var u := if IsSpace(t[2]) then t[3..] else t[2..];
    SpacesOfNumber(t);
    KeepNonSpace(t[1..]);
    assert t[1..][1..] == t[2..];
    KeepNonSpace(t);
  }

  lemma KeepNonSpace(t: string)
    requires t != [] && !IsSpace(t[0])
    ensures RemoveSpaces(t) == [t[0]] + RemoveSpaces(t[1..])
  {
  }

  lemma SpacesOfNumber(t: string)
    requires IsCodeText(t)
    ensures RemoveSpaces(t[2..]) == (if IsSpace(t[2]) then t[3..] else t[2..])
  {
    var u := if IsSpace(t[2]) then t[3..] else t[2..];
    assert IsNumberPart(u);
    NoSpacesUnchanged(u);
    if IsSpace(t[2]) {
      assert t[2..][1..] == u;
    }
  }

  lemma UpperOfCode(s: char, h: char, u: string)
    requires (s == 'S' || s == 's') && (h == 'H' || h == 'h') && IsNumberPart(u)
    ensures IsMotorwayCode(Upper([s, h] + u))
  {
    var r := Upper([s, h] + u);
    assert r[0] == UpperChar(s) && r[1] == UpperChar(h);
    assert forall j :: 0 <= j < |u| ==> r[2 + j] == UpperChar(u[j]) by {
      forall j | 0 <= j < |u| ensures r[2 + j] == UpperChar(u[j]) {
        assert ([s, h] + u)[2 + j] == u[j];
      }
    }
  }

  lemma {:induction false} NoSpacesUnchanged(u: string)
    requires forall j :: 0 <= j < |u| ==> !IsSpace(u[j])
    ensures RemoveSpaces(u) == u
  {
    if u != [] {
      NoSpacesUnchanged(u[1..]);
    }
  }


  /** motorwayOf agrees with the leftmost-first reading of the regular expression: "" exactly
      when nothing matches, otherwise the canonical form of the leftmost match. */
  lemma MotorwayOfSpec(name: string)
    ensures MotorwayOf(name) == "" <==> forall i, e :: MatchesAt(name, i, e) ==> false
    ensures MotorwayOf(name) != "" ==>
              exists i, e :: && MatchesAt(name, i, e)
                             && MotorwayOf(name) == Canonical(name[i..e])
                             && forall i', e' :: MatchesAt(name, i', e') ==> i <= i'
  {
    FirstMatchSpec(name, 0);
    match FirstMatch(name, 0)
    case Some((i, e)) =>
      CanonicalOfCode(name[i..e]);
      assert MatchesAt(name, i, e);
    case None =>
  }

  /** `s[i..]` starts with "SH" in some case, which every match does. */
  predicate ShAt(s: string, i: nat) {
    i + 1 < |s| && (s[i] == 'S' || s[i] == 's') && (s[i + 1] == 'H' || s[i + 1] == 'h')
  }

  /** The search skips every position where "SH" does not start. */
  lemma {:induction false} SkipWithoutSh(s: string, from: nat, to: nat)
    requires from <= to <= |s|
    requires forall i :: from <= i < to ==> !ShAt(s, i)
    ensures FirstMatch(s, from) == FirstMatch(s, to)
    decreases |s| - from
  {
    if from < to {
      assert !ShAt(s, from);
      assert MatchEnd(s, from).None?;
      SkipWithoutSh(s, from + 1, to);
    }
  }

  /** A name without "SH" in any case has no motorway code. */
  lemma NoShNoCode(name: string)
    requires forall i :: 0 <= i < |name| ==> !ShAt(name, i)
    ensures MotorwayOf(name) == ""
  {
    SkipWithoutSh(name, 0, |name|);
    assert MatchEnd(name, |name|).None?;
  }

  lemma ExampleRampSuffix()
    ensures MotorwayOf("sh16a ramp") == "SH16A"
  {
    RampMatch();
    RampCanonical();
  }

  lemma RampMatch()
    ensures FirstMatch("sh16a ramp", 0) == Some((0, 5))
  {
    assert MatchEnd("sh16a ramp", 0) == Some(5);
  }

  lemma RampCanonical()
    ensures Canonical("sh16a ramp"[0..5]) == "SH16A"
  {
    assert "sh16a ramp"[0..5] == "sh16a";
    assert RemoveSpaces("sh16a") == "sh16a" by {
      NoSpacesUnchanged("sh16a");
    }
    assert Upper("sh16a") == "SH16A" by {
      var r := Upper("sh16a");
      assert r[0] == 'S' && r[1] == 'H' && r[2] == '1' && r[3] == '6' && r[4] == 'A';
    }
  }

  lemma ExampleHighwayInText()
    ensures MotorwayOf("State Highway SH1 closure") == "SH1"
  {
    HighwayMatch();
    HighwayCanonical();
  }

  lemma HighwayMatch()
    ensures FirstMatch("State Highway SH1 closure", 0) == Some((14, 17))
  {
    var s := "State Highway SH1 closure";
    HighwayNoShBefore();
    SkipWithoutSh(s, 0, 14);
    HighwayMatchAt();
  }

  lemma HighwayNoShBefore()
    ensures forall i :: 0 <= i < 14 ==> !ShAt("State Highway SH1 closure", i)
  {
    var s := "State Highway SH1 closure";
    assert s[1] == 't';
    assert forall i :: 1 <= i < 14 ==> s[i] != 'S' && s[i] != 's';
  }

  lemma HighwayMatchAt()
    ensures FirstMatch("State Highway SH1 closure", 14) == Some((14, 17))
  {
    assert MatchEnd("State Highway SH1 closure", 14) == Some(17);
  }

  lemma HighwayCanonical()
    ensures Canonical("State Highway SH1 closure"[14..17]) == "SH1"
  {
    assert "State Highway SH1 closure"[14..17] == "SH1";
    assert RemoveSpaces("SH1") == "SH1" by {
      NoSpacesUnchanged("SH1");
    }
    assert Upper("SH1") == "SH1";
  }

  lemma ExampleNoCode()
    ensures MotorwayOf("Queen Street") == ""
  {
    assert forall i :: 0 <= i < |"Queen Street"| ==> !ShAt("Queen Street", i);
    NoShNoCode("Queen Street");
  }
}
