/** `extractMessageText`: the three `replace` passes that clean a message
    bubble's text before it is spoken. Each pass is a left-to-right scanner
    that removes or replaces the leftmost match and resumes after it, as a
    global (`/g`) JavaScript replace does. */
module MessageText {
  import opened JsText

  /** The read-receipt glyph U+2713. */
  const CHECK_MARK: char := '\U{2713}'

  predicate IsMeridiem(w: string) {
    w == "AM" || w == "PM"
  }

  /** `\d{1,2}:\d{2}` matched in full. */
  predicate IsClock(w: string) {
    || (|w| == 4 && IsDigit(w[0]) && w[1] == ':' && IsDigit(w[2]) && IsDigit(w[3]))
    || (|w| == 5 && IsDigit(w[0]) && IsDigit(w[1]) && w[2] == ':' && IsDigit(w[3]) && IsDigit(w[4]))
  }

  /** `(\s?(AM|PM))?` matched in full. */
  predicate IsTimeSuffix(w: string) {
    w == [] || IsMeridiem(w) || (|w| == 3 && IsSpace(w[0]) && IsMeridiem(w[1..]))
  }

  /** The strings `\d{1,2}:\d{2}(\s?(AM|PM))?` matches in full. */
  predicate IsTimeStamp(w: string) {
    || (|w| >= 4 && IsClock(w[..4]) && IsTimeSuffix(w[4..]))
    || (|w| >= 5 && IsClock(w[..5]) && IsTimeSuffix(w[5..]))
  }

  /** Length of the optional suffix a backtracking matcher takes at the start
      of `s`: whitespace and meridiem first, then the meridiem alone, then
      nothing. */
  function SuffixAt(s: string): nat {
    if |s| >= 3 && IsSpace(s[0]) && IsMeridiem(s[1..3]) then 3
    else if |s| >= 2 && IsMeridiem(s[..2]) then 2
    else 0
  }

  /** Length of the time-stamp match anchored at the start of `s`, 0 when
      there is none. The greedy `\d{1,2}` tries two hour digits before one. */
  function TimeMatchAt(s: string): (n: nat)
    ensures n <= |s|
  {
    var clock :=
      if |s| >= 5 && IsClock(s[..5]) then 5
      else if |s| >= 4 && IsClock(s[..4]) then 4
      else 0;
    if clock == 0 then 0 else clock + SuffixAt(s[clock..])
  }

  /** `text.replace(/\d{1,2}:\d{2}(\s?(AM|PM))?/g, '')`. */
  function StripTimes(s: string): (r: string)
    ensures |r| <= |s|
    decreases |s|
  {
    if s == [] then []
    else if TimeMatchAt(s) > 0 then StripTimes(s[TimeMatchAt(s)..])
    else [s[0]] + StripTimes(s[1..])
  }

  /** `text.replace(/✓✓?/g, '')`. */
  function StripReceipts(s: string): string
    decreases |s|
  {
    if s == [] then []
    else if s[0] == CHECK_MARK then
      if |s| >= 2 && s[1] == CHECK_MARK then StripReceipts(s[2..]) else StripReceipts(s[1..])
    else [s[0]] + StripReceipts(s[1..])
  }

  /** `s` with every occurrence of `c` deleted. */
  function Without(s: string, c: char): string {
    if s == [] then [] else if s[0] == c then Without(s[1..], c) else [s[0]] + Without(s[1..], c)
  }

  /** `text.replace(/\s+/g, ' ').trim()`. */
  function CollapseAndTrim(s: string): string {
    Trim(ReplaceSpaceRuns(s, " "))
  }

  /** The text `extractMessageText` returns for an element whose rendered
      text is `raw`. */
  function CleanText(raw: string): string {
    CollapseAndTrim(StripReceipts(StripTimes(raw)))
  }

  // ---------------------------------------------------------------- times

  /** The suffix taken is the longest prefix of `t` that the optional group
      matches in full. */
  lemma SuffixAtLongest(t: string)
    ensures SuffixAt(t) <= |t| && IsTimeSuffix(t[..SuffixAt(t)])
    ensures forall j | SuffixAt(t) < j <= |t| :: !IsTimeSuffix(t[..j])
  {
    forall j | SuffixAt(t) < j <= |t|
      ensures !IsTimeSuffix(t[..j])
    {
      if j == 2 {
        assert t[..j] == t[..2];
      } else if j == 3 {
        assert t[..j][1..] == t[1..3];
      }
    }
  }

  /** The match a backtracking engine finds at the start of `s` is the
      longest prefix of `s` that the time-stamp pattern matches; 0 means no
      prefix matches. */
  lemma TimeMatchAtLongest(s: string)
    ensures TimeMatchAt(s) == 0 || IsTimeStamp(s[..TimeMatchAt(s)])
    ensures forall m | TimeMatchAt(s) < m <= |s| :: !IsTimeStamp(s[..m])
  {
    var n := TimeMatchAt(s);
    var c := if |s| >= 5 && IsClock(s[..5]) then 5 else if |s| >= 4 && IsClock(s[..4]) then 4 else 0;
    if c > 0 {
      var t := s[c..];
      SuffixAtLongest(t);
      assert s[..n][..c] == s[..c];
      assert s[..n][c..] == t[..SuffixAt(t)];
    }
    forall m | n < m <= |s|
      ensures !IsTimeStamp(s[..m])
    {
      var w := s[..m];
      if m < 4 {
      } else if c == 4 {
        SuffixAtLongest(s[4..]);
        assert w[4..] == s[4..][..m - 4];
      } else if c == 5 {
        SuffixAtLongest(s[5..]);
        assert w[..5] == s[..5];
        assert w[5..] == s[5..][..m - 5];
      } else {
        assert w[..4] == s[..4];
        if m >= 5 {
          assert w[..5] == s[..5];
        }
      }
    }
  }

  /** One step of the scan: no match at `j` copies `s[j]`. */
  lemma StripTimesStep(s: string, j: nat)
    requires j < |s| && TimeMatchAt(s[j..]) == 0
    ensures StripTimes(s[j..]) == [s[j]] + StripTimes(s[j + 1..])
  {
    assert s[j..][1..] == s[j + 1..];
  }

  /** From position `j` on, a scan that meets no match before position `k`
      copies `s[j..k]`. */
  lemma {:induction false} StripTimesCopies(s: string, j: nat, k: nat)
    requires j <= k <= |s|
    requires forall i | j <= i < k :: TimeMatchAt(s[i..]) == 0
    ensures StripTimes(s[j..]) == s[j..k] + StripTimes(s[k..])
    decreases k - j
  {
    if j < k {
      StripTimesCopies(s, j + 1, k);
      StripTimesStep(s, j);
      ConsAppend(s, j, k, StripTimes(s[j..]), StripTimes(s[j + 1..]), StripTimes(s[k..]));
    } else {
      assert s[j..k] == [];
    }
  }

  /** Sequence algebra for one copied character, kept apart from the scanner. */
  lemma ConsAppend(s: string, j: nat, k: nat, a: string, b: string, c: string)
    requires j < k <= |s|
    requires b == s[j + 1..k] + c
    requires a == [s[j]] + b
    ensures a == s[j..k] + c
  {
    assert s[j..k] == [s[j]] + s[j + 1..k];
    assert s[j..k] + c == [s[j]] + (s[j + 1..k] + c);
  }

  /** A scan that meets no match leaves the text as it is. */
  lemma StripTimesNoMatch(s: string)
    requires forall i | 0 <= i < |s| :: TimeMatchAt(s[i..]) == 0
    ensures StripTimes(s) == s
  {
    StripTimesCopies(s, 0, |s|);
    assert s[0..] == s && s[0..|s|] == s && s[|s|..] == [];
  }

  /** Every match contains a colon, so a text without one is left as it is. */
  lemma StripTimesNoColon(s: string)
    requires ':' !in s
    ensures StripTimes(s) == s
  {
    forall i | 0 <= i < |s|
      ensures TimeMatchAt(s[i..]) == 0
    {
      var t := s[i..];
      if |t| >= 4 {
        assert t[1] == s[i + 1] && t[2] == s[i + 2];
      }
    }
    StripTimesNoMatch(s);
  }

  /** Leftmost first: when the first match the scan meets starts at `k`, the
      pass keeps `s[..k]`, removes the match and resumes right after it. */
  lemma StripTimesLeftmost(s: string, k: nat)
    requires k < |s|
    requires forall i | 0 <= i < k :: TimeMatchAt(s[i..]) == 0
    requires TimeMatchAt(s[k..]) > 0
    ensures StripTimes(s) == s[..k] + StripTimes(s[k + TimeMatchAt(s[k..])..])
  {
    StripTimesCopies(s, 0, k);
    StripTimesSkip(s, k);
    assert s[0..] == s && s[0..k] == s[..k];
  }

  /** One step of the scan: a match at `k` is dropped whole. */
  lemma StripTimesSkip(s: string, k: nat)
    requires k < |s| && TimeMatchAt(s[k..]) > 0
    ensures StripTimes(s[k..]) == StripTimes(s[k + TimeMatchAt(s[k..])..])
  {
    assert s[k..][TimeMatchAt(s[k..])..] == s[k + TimeMatchAt(s[k..])..];
  }

  lemma {:induction false} StripTimesJsLength(s: string)
    ensures JsLength(StripTimes(s)) <= JsLength(s)
    decreases |s|
  {
    if s != [] {
      var n := TimeMatchAt(s);
      if n > 0 {
        StripTimesJsLength(s[n..]);
        JsLengthSlice(s, n, |s|);
        assert s[n..|s|] == s[n..];
      } else {
        StripTimesJsLength(s[1..]);
        assert s == [s[0]] + s[1..];
        JsLengthAppend([s[0]], s[1..]);
        JsLengthAppend([s[0]], StripTimes(s[1..]));
      }
    }
  }

  // ------------------------------------------------------------- receipts

  /** The receipt pass deletes every check mark, single or doubled, and
      nothing else. */
  lemma {:induction false} StripReceiptsDeletesChecks(s: string)
    ensures StripReceipts(s) == Without(s, CHECK_MARK)
    decreases |s|
  {
    if s != [] {
      if s[0] == CHECK_MARK && |s| >= 2 && s[1] == CHECK_MARK {
        StripReceiptsDeletesChecks(s[2..]);
        assert s[1..][1..] == s[2..];
      } else {
        StripReceiptsDeletesChecks(s[1..]);
      }
    }
  }

  /** No `c` is left, and the result is no longer than the input. */
  lemma {:induction false} WithoutRemoves(s: string, c: char)
    ensures c !in Without(s, c) && |Without(s, c)| <= |s|
  {
    if s != [] {
      WithoutRemoves(s[1..], c);
    }
  }

  lemma {:induction false} WithoutAbsent(s: string, c: char)
    requires c !in s
    ensures Without(s, c) == s
  {
    if s != [] {
      WithoutAbsent(s[1..], c);
      assert s == [s[0]] + s[1..];
    }
  }

  lemma {:induction false} WithoutShrinks(s: string, c: char)
    ensures JsLength(Without(s, c)) <= JsLength(s)
    ensures RemoveSpaces(Without(s, c)) == Without(RemoveSpaces(s), c)
  {
    if s != [] {
      WithoutShrinks(s[1..], c);
      assert s == [s[0]] + s[1..];
      JsLengthAppend([s[0]], s[1..]);
      if s[0] != c {
        JsLengthAppend([s[0]], Without(s[1..], c));
        RemoveSpacesAppend([s[0]], Without(s[1..], c));
      }
    }
  }

  // ----------------------------------------------------------- whitespace

  /** Collapsing whitespace brings in no character but U+0020: any other
      character, whitespace or not, that is absent before stays absent. */
  lemma {:induction false} CollapseKeepsAbsent(s: string, c: char)
    requires c !in s && c != ' '
    ensures c !in ReplaceSpaceRuns(s, " ")
    decreases |s|
  {
    if s != [] {
      if IsSpace(s[0]) {
        var t := TrimStart(s);
        TrimStartFacts(s);
        assert forall i | 0 <= i < |t| :: t[i] == s[|s| - |t| + i];
        CollapseKeepsAbsent(t, c);
      } else {
        CollapseKeepsAbsent(s[1..], c);
      }
    }
  }

  /** Text that is already single-spaced with plain spaces only is left as
      it is by the whitespace pass. */
  lemma {:induction false} CollapseOfCollapsed(s: string)
    requires SingleSpaced(s) && PlainSpaces(s)
    ensures ReplaceSpaceRuns(s, " ") == s
    decreases |s|
  {
    if s != [] {
      SliceSpacing(s, 1, |s|);
      assert s[1..|s|] == s[1..];
      CollapseOfCollapsed(s[1..]);
      if IsSpace(s[0]) {
        assert s == " " + s[1..];
        assert TrimStart(s) == s[1..];
      } else {
        assert s == [s[0]] + s[1..];
      }
    }
  }

  // --------------------------------------------------------------- whole

  /** The cleaned text has no whitespace at either end. */
  lemma CleanTextTrimmed(raw: string)
    ensures var r := CleanText(raw); r == [] || (!IsSpace(r[0]) && !IsSpace(r[|r| - 1]))
  {
    TrimEnds(ReplaceSpaceRuns(StripReceipts(StripTimes(raw)), " "));
  }

  /** The cleaned text has no two whitespace characters in a row, and its only
      whitespace character is U+0020. */
  lemma CleanTextSpacing(raw: string)
    ensures SingleSpaced(CleanText(raw)) && PlainSpaces(CleanText(raw))
  {
    var m := ReplaceSpaceRuns(StripReceipts(StripTimes(raw)), " ");
    CollapseSpacing(StripReceipts(StripTimes(raw)));
    var a := TrimSlice(m);
    SliceSpacing(m, a, a + |Trim(m)|);
  }

  /** No check mark survives the cleanup. */
  lemma CleanTextNoReceipt(raw: string)
    ensures CHECK_MARK !in CleanText(raw)
  {
    var c := StripReceipts(StripTimes(raw));
    var m := ReplaceSpaceRuns(c, " ");
    StripReceiptsDeletesChecks(StripTimes(raw));
    WithoutRemoves(StripTimes(raw), CHECK_MARK);
    CollapseKeepsAbsent(c, CHECK_MARK);
    var a := TrimSlice(m);
    var r := Trim(m);
    assert forall i | 0 <= i < |r| :: r[i] == m[a + i];
  }

  /** The first two passes only delete characters. */
  lemma StripPassesShorter(raw: string)
    ensures var c := StripReceipts(StripTimes(raw));
      |c| <= |raw| && JsLength(c) <= JsLength(raw)
  {
    var t := StripTimes(raw);
    StripTimesJsLength(raw);
    StripReceiptsDeletesChecks(t);
    WithoutRemoves(t, CHECK_MARK);
    WithoutShrinks(t, CHECK_MARK);
  }

  /** The whitespace pass never lengthens its input. */
  lemma CollapseAndTrimShorter(c: string)
    ensures |CollapseAndTrim(c)| <= |c| && JsLength(CollapseAndTrim(c)) <= JsLength(c)
  {
    var m := ReplaceSpaceRuns(c, " ");
    CollapseLength(c);
    var a := TrimSlice(m);
    JsLengthSlice(m, a, a + |Trim(m)|);
  }

  /** The cleaned text is never longer than the element's text, counted in
      characters or in UTF-16 code units (`length`). */
  lemma CleanTextShorter(raw: string)
    ensures |CleanText(raw)| <= |raw| && JsLength(CleanText(raw)) <= JsLength(raw)
  {
    StripPassesShorter(raw);
    CollapseAndTrimShorter(StripReceipts(StripTimes(raw)));
  }

  /** Apart from whitespace, the cleaned text is the element's text with the
      time stamps and the check marks removed, in order. */
  lemma CleanTextContent(raw: string)
    ensures RemoveSpaces(CleanText(raw)) == Without(RemoveSpaces(StripTimes(raw)), CHECK_MARK)
  {
    var t := StripTimes(raw);
    var c := StripReceipts(t);
    StripReceiptsDeletesChecks(t);
    WithoutShrinks(t, CHECK_MARK);
    CollapseContent(c);
    TrimContent(ReplaceSpaceRuns(c, " "));
  }

  // ------------------------------------------------------------ examples

  /** Receipt-pass steps: a character other than a check mark is copied, a
      doubled check mark is dropped as one match. */
  lemma StripReceiptsKeep(x: char, s: string)
    requires x != CHECK_MARK
    ensures StripReceipts([x] + s) == [x] + StripReceipts(s)
  {
    assert ([x] + s)[1..] == s;
  }

  lemma StripReceiptsDouble(s: string)
    ensures StripReceipts([CHECK_MARK, CHECK_MARK] + s) == StripReceipts(s)
  {
    assert ([CHECK_MARK, CHECK_MARK] + s)[2..] == s;
  }

  /** A clock followed by " AM" is matched whole, whatever follows. */
  lemma TimeMatchStamp(clock: string, rest: string)
    requires IsClock(clock)
    ensures TimeMatchAt(clock + " AM" + rest) == |clock| + 3
  {
    var s := clock + " AM" + rest;
    assert s[..|clock|] == clock;
    assert s[|clock|] == ' ';
    if |clock| == 4 {
      assert s[..5][4] == ' ';
    }
    assert s[|clock|..][1..3] == "AM";
  }

  /** Words the cleanup leaves as they are: trimmed, single plain spaces,
      no colon and no check mark. */
  predicate PlainWords(w: string) {
    && w != [] && !IsSpace(w[0]) && !IsSpace(w[|w| - 1])
    && SingleSpaced(w) && PlainSpaces(w)
    && ':' !in w && CHECK_MARK !in w
  }

  lemma BubbleTimes(clock: string, w: string)
    requires IsClock(clock) && ':' !in w
    ensures StripTimes(clock + " AM " + [CHECK_MARK, CHECK_MARK] + " " + w)
         == " " + [CHECK_MARK, CHECK_MARK] + " " + w
  {
    var rest := " " + [CHECK_MARK, CHECK_MARK] + " " + w;
    var s := clock + " AM" + rest;
    assert s == clock + " AM " + [CHECK_MARK, CHECK_MARK] + " " + w;
    TimeMatchStamp(clock, rest);
    assert s[|clock| + 3..] == rest;
    StripTimesNoColon(rest);
  }

  lemma BubbleReceipts(w: string)
    requires CHECK_MARK !in w
    ensures StripReceipts(" " + [CHECK_MARK, CHECK_MARK] + " " + w) == "  " + w
  {
    var t := " " + w;
    assert " " + [CHECK_MARK, CHECK_MARK] + " " + w == [' '] + ([CHECK_MARK, CHECK_MARK] + t);
    StripReceiptsKeep(' ', [CHECK_MARK, CHECK_MARK] + t);
    StripReceiptsDouble(t);
    StripReceiptsDeletesChecks(t);
    WithoutAbsent(t, CHECK_MARK);
  }

  lemma BubbleSpaces(w: string)
    requires w != [] && !IsSpace(w[0]) && !IsSpace(w[|w| - 1])
    requires SingleSpaced(w) && PlainSpaces(w)
    ensures CollapseAndTrim("  " + w) == w
  {
    var s := "  " + w;
    assert s[1..] == " " + w && (" " + w)[1..] == w;
    assert TrimStart(w) == w;
    assert TrimStart(" " + w) == w;
    assert TrimStart(s) == w;
    CollapseOfCollapsed(w);
    assert ReplaceSpaceRuns(s, " ") == " " + w;
  }

  /** A message bubble made of a time stamp, a double receipt and plain
      words is cleaned to exactly those words. */
  lemma BubbleCleanup(clock: string, w: string)
    requires IsClock(clock) && PlainWords(w)
    ensures CleanText(clock + " AM " + [CHECK_MARK, CHECK_MARK] + " " + w) == w
  {
    BubbleTimes(clock, w);
    BubbleReceipts(w);
    BubbleSpaces(w);
  }

  lemma HelloTherePlain()
    ensures PlainWords("Hello there")
  {
    SingleSpacedJoin("Hello", "there");
    assert "Hello" + " " + "there" == "Hello there";
  }

  /** "10:42 AM ✓✓ Hello there" is cleaned to "Hello there". */
  lemma ExampleBubble()
    ensures CleanText("10:42" + " AM " + [CHECK_MARK, CHECK_MARK] + " " + "Hello there") == "Hello there"
  {
    HelloTherePlain();
    assert IsClock("10:42");
    BubbleCleanup("10:42", "Hello there");
  }

  /** "1✓:23" holds no time stamp: the first pass leaves it as it is. */
  lemma ExampleJoinedTimes()
    ensures StripTimes("1\U{2713}:23") == "1\U{2713}:23"
  {
    var s := "1\U{2713}:23";
    assert TimeMatchAt(s) == 0;
    assert TimeMatchAt(s[1..]) == 0;
    assert TimeMatchAt(s[2..]) == 0;
    assert TimeMatchAt(s[3..]) == 0;
    assert TimeMatchAt(s[4..]) == 0;
    StripTimesNoMatch(s);
  }

  lemma ExampleJoinedReceipts()
    ensures StripReceipts("1\U{2713}:23") == "1:23"
  {
  }

  lemma ExampleJoinedSpaces()
    ensures CollapseAndTrim("1:23") == "1:23"
  {
    CollapseOfCollapsed("1:23");
  }

  /** Deleting the check mark of "1✓:23" leaves a time stamp behind. */
  lemma ExampleJoinedStamp()
    ensures CleanText("1\U{2713}:23") == "1:23"
  {
    ExampleJoinedTimes();
    ExampleJoinedReceipts();
    ExampleJoinedSpaces();
  }

  lemma ExampleBareStamp()
    ensures CleanText("1:23") == ""
  {
    assert "1:23"[..4] == "1:23";
    assert TimeMatchAt("1:23") == 4;
    assert StripTimes("1:23") == [];
  }

  /** The cleanup is not idempotent: deleting a check mark can join the parts
      of a time stamp that the first pass had already passed over. */
  lemma NotIdempotent()
    ensures CleanText("1\U{2713}:23") == "1:23"
    ensures CleanText(CleanText("1\U{2713}:23")) == ""
  {
    ExampleJoinedStamp();
    ExampleBareStamp();
  }
}
