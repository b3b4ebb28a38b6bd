/** The JavaScript string primitives the hooks rely on: the regular-expression
    classes `\s` and `\d`, `String.prototype.length` (UTF-16 code units),
    `replace(/\s+/g, rep)` and `trim()`.

    A Dafny `string` is a sequence of Unicode scalar values. No character the
    patterns below look for is a surrogate, so scanning scalar values finds the
    same matches as scanning the UTF-16 code units JavaScript works on; only
    the length differs, and `JsLength` measures it as JavaScript does. */
module JsText {

  /** `\s`: the WhiteSpace and LineTerminator code points of ECMAScript, which
      is also the set `String.prototype.trim` strips. It includes NBSP. */
  predicate IsSpace(c: char) {
    var n := c as int;
    n == 0x09 || n == 0x0A || n == 0x0B || n == 0x0C || n == 0x0D || n == 0x20
    || n == 0xA0 || n == 0x1680 || (0x2000 <= n <= 0x200A)
    || n == 0x2028 || n == 0x2029 || n == 0x202F || n == 0x205F
    || n == 0x3000 || n == 0xFEFF
  }

  /** `\d`: ASCII digits only. */
  predicate IsDigit(c: char) {
    '0' <= c <= '9'
  }

  /** Number of UTF-16 code units that encode `c`. */
  function CodeUnits(c: char): (n: nat)
    ensures 1 <= n <= 2
    ensures IsSpace(c) ==> n == 1
  {
    if c as int < 0x1_0000 then 1 else 2
  }

  /** `s.length` in JavaScript: characters outside the Basic Multilingual
      Plane count twice. */
  function JsLength(s: string): (n: nat)
    ensures |s| <= n <= 2 * |s|
  {
    if s == [] then 0 else CodeUnits(s[0]) + JsLength(s[1..])
  }

  lemma {:induction false} JsLengthAppend(a: string, b: string)
    ensures JsLength(a + b) == JsLength(a) + JsLength(b)
  {
    if a != [] {
      assert (a + b)[1..] == a[1..] + b;
      JsLengthAppend(a[1..], b);
    } else {
      assert a + b == b;
    }
  }

  /** A run of whitespace is as long in JavaScript as it is here. */
  lemma {:induction false} JsLengthAllSpace(w: string)
    requires AllSpace(w)
    ensures JsLength(w) == |w|
  {
    if w != [] {
      JsLengthAllSpace(w[1..]);
    }
  }

  lemma JsLengthSlice(s: string, a: nat, b: nat)
    requires a <= b <= |s|
    ensures |s[a..b]| <= |s| && JsLength(s[a..b]) <= JsLength(s)
  {
    assert s == s[..a] + s[a..b] + s[b..];
    JsLengthAppend(s[..a] + s[a..b], s[b..]);
    JsLengthAppend(s[..a], s[a..b]);
  }

  predicate NoSpace(s: string) {
    forall i | 0 <= i < |s| :: !IsSpace(s[i])
  }

  predicate AllSpace(s: string) {
    forall i | 0 <= i < |s| :: IsSpace(s[i])
  }

  /** No two adjacent whitespace characters. */
  predicate SingleSpaced(s: string) {
    forall i | 0 <= i < |s| - 1 :: !(IsSpace(s[i]) && IsSpace(s[i + 1]))
  }

  /** Every whitespace character is the plain space U+0020. */
  predicate PlainSpaces(s: string) {
    forall i | 0 <= i < |s| :: IsSpace(s[i]) ==> s[i] == ' '
  }

  /** `s` with every whitespace character deleted, wherever it stands: the
      reference meaning of removing whitespace. */
  function RemoveSpaces(s: string): string {
    if s == [] then []
    else if IsSpace(s[0]) then RemoveSpaces(s[1..])
    else [s[0]] + RemoveSpaces(s[1..])
  }

  /** What is left has no whitespace and is no longer than the input. */
  lemma {:induction false} RemoveSpacesNoSpace(s: string)
    ensures NoSpace(RemoveSpaces(s)) && |RemoveSpaces(s)| <= |s|
  {
    if s != [] {
      RemoveSpacesNoSpace(s[1..]);
    }
  }

  lemma {:induction false} RemoveSpacesAppend(a: string, b: string)
    ensures RemoveSpaces(a + b) == RemoveSpaces(a) + RemoveSpaces(b)
  {
    if a == [] {
      assert a + b == b;
    } else {
      assert (a + b)[1..] == a[1..] + b;
      RemoveSpacesAppend(a[1..], b);
    }
  }

  lemma {:induction false} RemoveSpacesOfAllSpace(w: string)
    requires AllSpace(w)
    ensures RemoveSpaces(w) == []
  {
    if w != [] {
      RemoveSpacesOfAllSpace(w[1..]);
    }
  }

  /** Deleting whitespace from a string that has none changes nothing; so
      deleting whitespace is idempotent. */
  lemma {:induction false} RemoveSpacesOfNoSpace(s: string)
    requires NoSpace(s)
    ensures RemoveSpaces(s) == s
  {
    if s != [] {
      assert s == [s[0]] + s[1..];
      RemoveSpacesOfNoSpace(s[1..]);
    }
  }

  /** Leading whitespace dropped (`trimStart()`); what it drops is also the
      longest `\s+` match at the start of `s`. */
  function TrimStart(s: string): (r: string)
    ensures |r| <= |s|
    ensures s != [] && IsSpace(s[0]) ==> |r| < |s|
  {
    if s != [] && IsSpace(s[0]) then TrimStart(s[1..]) else s
  }

  /** `trimStart()` drops a whitespace prefix, all of it. */
  lemma {:induction false} TrimStartFacts(s: string)
    ensures var r := TrimStart(s);
      && r == s[|s| - |r|..] && AllSpace(s[..|s| - |r|])
      && (r == [] || !IsSpace(r[0]))
  {
    if s != [] && IsSpace(s[0]) {
      TrimStartFacts(s[1..]);
      var r := TrimStart(s);
      assert s[1..][..|s| - 1 - |r|] == s[1..|s| - |r|];
    }
  }

  /** Trailing whitespace dropped (`trimEnd()`). */
  function TrimEnd(s: string): (r: string)
    ensures |r| <= |s|
  {
    if s != [] && IsSpace(s[|s| - 1]) then TrimEnd(s[..|s| - 1]) else s
  }

  /** `trimEnd()` drops a whitespace suffix, all of it. */
  lemma {:induction false} TrimEndFacts(s: string)
    ensures var r := TrimEnd(s);
      && r == s[..|r|] && AllSpace(s[|r|..])
      && (r == [] || !IsSpace(r[|r| - 1]))
  {
    if s != [] && IsSpace(s[|s| - 1]) {
      var p := s[..|s| - 1];
      TrimEndFacts(p);
      var r := TrimEnd(s);
      assert r == TrimEnd(p);
      assert r == p[..|r|] && p[..|r|] == s[..|r|];
      assert p[|r|..] == s[|r|..|s| - 1];
      forall i | |r| <= i < |s|
        ensures IsSpace(s[i])
      {
        if i < |s| - 1 {
          assert s[i] == p[|r|..][i - |r|];
        }
      }
    }
  }

  /** `s.trim()`. */
  function Trim(s: string): string {
    TrimEnd(TrimStart(s))
  }

  lemma TrimStartContent(s: string)
    ensures RemoveSpaces(TrimStart(s)) == RemoveSpaces(s)
  {
    TrimStartFacts(s);
    var t := TrimStart(s);
    var a := |s| - |t|;
    assert s == s[..a] + t;
    RemoveSpacesAppend(s[..a], t);
    RemoveSpacesOfAllSpace(s[..a]);
  }

  lemma TrimEndContent(s: string)
    ensures RemoveSpaces(TrimEnd(s)) == RemoveSpaces(s)
  {
    TrimEndFacts(s);
    var r := TrimEnd(s);
    assert s == r + s[|r|..];
    RemoveSpacesAppend(r, s[|r|..]);
    RemoveSpacesOfAllSpace(s[|r|..]);
  }

  /** `trim()` deletes only whitespace, and only at the ends: the result is
      the slice of the input between two all-whitespace margins. */
  lemma TrimSlice(s: string) returns (a: nat)
    ensures a + |Trim(s)| <= |s| && Trim(s) == s[a..a + |Trim(s)|]
    ensures AllSpace(s[..a]) && AllSpace(s[a + |Trim(s)|..])
  {
    var t := TrimStart(s);
    var r := TrimEnd(t);
    TrimStartFacts(s);
    TrimEndFacts(t);
    a := |s| - |t|;
    assert s[a + |r|..] == t[|r|..];
  }

  /** `trim()` leaves no whitespace at either end. */
  lemma TrimEnds(s: string)
    ensures Trim(s) == [] || (!IsSpace(Trim(s)[0]) && !IsSpace(Trim(s)[|Trim(s)| - 1]))
  {
    var t := TrimStart(s);
    var r := TrimEnd(t);
    TrimStartFacts(s);
    TrimEndFacts(t);
    assert r != [] ==> r[0] == t[0];
  }

  /** `trim()` keeps every character that is not whitespace. */
  lemma TrimContent(s: string)
    ensures RemoveSpaces(Trim(s)) == RemoveSpaces(s)
  {
    TrimStartContent(s);
    TrimEndContent(TrimStart(s));
  }

  /** A slice keeps the two spacing properties. */
  lemma SliceSpacing(s: string, a: nat, b: nat)
    requires a <= b <= |s|
    ensures SingleSpaced(s) ==> SingleSpaced(s[a..b])
    ensures PlainSpaces(s) ==> PlainSpaces(s[a..b])
  {
  }

  /** Two words joined by one plain space are single-spaced. */
  lemma SingleSpacedJoin(a: string, b: string)
    requires NoSpace(a) && NoSpace(b)
    ensures SingleSpaced(a + " " + b) && PlainSpaces(a + " " + b)
  {
    var s := a + " " + b;
    forall i | 0 <= i < |s| - 1
      ensures !(IsSpace(s[i]) && IsSpace(s[i + 1]))
    {
      if i < |a| {
      } else if i == |a| {
        assert s[i + 1] == b[0];
      } else {
        assert s[i] == b[i - |a| - 1];
      }
    }
    forall i | 0 <= i < |s|
      ensures IsSpace(s[i]) ==> s[i] == ' '
    {
      if i > |a| {
        assert s[i] == b[i - |a| - 1];
      }
    }
  }

  /** `s.replace(/\s+/g, rep)`: scanning left to right, each maximal run of
      whitespace (the greedy `\s+` match) is replaced by `rep` and every other
      character is copied. */
  function ReplaceSpaceRuns(s: string, rep: string): string
    decreases |s|
  {
    if s == [] then []
    else if IsSpace(s[0]) then rep + ReplaceSpaceRuns(TrimStart(s), rep)
    else [s[0]] + ReplaceSpaceRuns(s[1..], rep)
  }

  /** Replacing the runs by nothing deletes exactly the whitespace. */
  lemma {:induction false} ReplaceSpaceRunsByNothing(s: string)
    ensures ReplaceSpaceRuns(s, "") == RemoveSpaces(s)
    decreases |s|
  {
    if s != [] {
      if IsSpace(s[0]) {
        var t := TrimStart(s);
        var k := |s| - |t|;
        TrimStartFacts(s);
        assert s == s[..k] + t;
        RemoveSpacesAppend(s[..k], t);
        RemoveSpacesOfAllSpace(s[..k]);
        ReplaceSpaceRunsByNothing(t);
      } else {
        ReplaceSpaceRunsByNothing(s[1..]);
      }
    }
  }

  /** One step of the scanner: a leading whitespace run becomes `rep` and the
      scan resumes after the run; a leading non-whitespace character is
      copied. */
  lemma ReplaceSpaceRunsHead(s: string, rep: string)
    requires s != []
    ensures ReplaceSpaceRuns(s, rep) ==
      if IsSpace(s[0]) then rep + ReplaceSpaceRuns(TrimStart(s), rep)
      else [s[0]] + ReplaceSpaceRuns(s[1..], rep)
    ensures !IsSpace(s[0]) ==> ReplaceSpaceRuns(s, rep)[0] == s[0]
  {
  }

  /** Replacing every run by one plain space leaves a single-spaced string
      whose only whitespace is U+0020. */
  lemma {:induction false} CollapseSpacing(s: string)
    ensures SingleSpaced(ReplaceSpaceRuns(s, " ")) && PlainSpaces(ReplaceSpaceRuns(s, " "))
    decreases |s|
  {
    if s != [] {
      var r := ReplaceSpaceRuns(s, " ");
      if IsSpace(s[0]) {
        var t := TrimStart(s);
        var r' := ReplaceSpaceRuns(t, " ");
        TrimStartFacts(s);
        CollapseSpacing(t);
        assert r == " " + r';
        if t != [] {
          ReplaceSpaceRunsHead(t, " ");
        }
      } else {
        var r' := ReplaceSpaceRuns(s[1..], " ");
        CollapseSpacing(s[1..]);
        assert r == [s[0]] + r';
      }
    }
  }

  /** Collapsing runs never makes the text longer, in either measure. */
  lemma {:induction false} CollapseLength(s: string)
    ensures |ReplaceSpaceRuns(s, " ")| <= |s|
    ensures JsLength(ReplaceSpaceRuns(s, " ")) <= JsLength(s)
    decreases |s|
  {
    if s != [] {
      var r := ReplaceSpaceRuns(s, " ");
      if IsSpace(s[0]) {
        var t := TrimStart(s);
        var k := |s| - |t|;
        TrimStartFacts(s);
        CollapseLength(t);
        assert s == s[..k] + t;
        JsLengthAppend(s[..k], t);
        JsLengthAllSpace(s[..k]);
        JsLengthAppend(" ", ReplaceSpaceRuns(t, " "));
      } else {
        CollapseLength(s[1..]);
        assert s == [s[0]] + s[1..];
        JsLengthAppend([s[0]], s[1..]);
        JsLengthAppend([s[0]], ReplaceSpaceRuns(s[1..], " "));
      }
    }
  }

  /** Collapsing runs keeps every other character, in order. */
  lemma {:induction false} CollapseContent(s: string)
    ensures RemoveSpaces(ReplaceSpaceRuns(s, " ")) == RemoveSpaces(s)
    decreases |s|
  {
    if s != [] {
      if IsSpace(s[0]) {
        var t := TrimStart(s);
        var k := |s| - |t|;
        TrimStartFacts(s);
        CollapseContent(t);
        assert s == s[..k] + t;
        RemoveSpacesAppend(s[..k], t);
        RemoveSpacesOfAllSpace(s[..k]);
        RemoveSpacesAppend(" ", ReplaceSpaceRuns(t, " "));
      } else {
        CollapseContent(s[1..]);
        RemoveSpacesAppend([s[0]], ReplaceSpaceRuns(s[1..], " "));
      }
    }
  }
}
