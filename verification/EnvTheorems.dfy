/**
 Reading what an update wrote, and updating twice.
 */
module EnvTheorems {
  import opened Wrappers
  import opened PlainText
  import opened EnvFile

  // ---- Lines ----------------------------------------------------------------

  lemma {:induction false} FirstLineEnds(line: string, rest: string)
    requires OneLine(line)
    ensures FirstLine(line + "\n" + rest) == line
  {
    if line == "" {
      assert line + "\n" + rest == "\n" + rest;
    } else {
      FirstLineEnds(line[1..], rest);
      assert (line + "\n" + rest)[1..] == line[1..] + "\n" + rest;
    }
  }

  /** No line holds a line break. */
  ghost predicate Separate(lines: seq<string>) {
    forall i :: 0 <= i < |lines| ==> OneLine(lines[i])
  }

  lemma LineComesOff(line: string, rest: string)
    requires OneLine(line)
    ensures SplitLines(line + "\n" + rest) == [line] + SplitLines(rest)
  {
    FirstLineEnds(line, rest);
    assert (line + "\n" + rest)[|line| + 1..] == rest;
    assert [line] + [] == [line];
  }

  lemma ContentOpens(lines: seq<string>)
    requires lines != []
    ensures Content(lines) == lines[0] + "\n" + if |lines| == 1 then "" else Content(lines[1..])
  {
  }

  lemma NoLines()
    ensures SplitLines("") == []
  {
  }

  lemma {:induction false} LinesComeBack(lines: seq<string>)
    requires Separate(lines) && lines != []
    ensures SplitLines(Content(lines)) == lines
  {
    var rest := lines[1..];
    ContentOpens(lines);
    LineComesOff(lines[0], if rest == [] then "" else Content(rest));
    hide Content, SplitLines, OneLine;
    if rest == [] {
      NoLines();
    } else {
      LinesComeBack(rest);
    }
    HeadAndRest(lines);
  }

  /** Written lines are read back, except that no lines read as one empty line. */
  lemma SplitUndoesContent(lines: seq<string>)
    requires Separate(lines)
    ensures SplitLines(Content(lines)) == if lines == [] then [""] else lines
  {
    if lines == [] {
      LineComesOff("", "");
      NoLines();
      assert Content(lines) == "" + "\n" + "";
    } else {
      LinesComeBack(lines);
    }
  }

  // ---- The two readings of a line -------------------------------------------

  lemma {:induction false} EqualsSurvivesStrip(s: string)
    ensures '=' in Strip(s) <==> '=' in s
    decreases |s|
  {
    hide IsSpace;
    if s != "" {
      if IsSpace(s[0]) {
        SpaceIsNoEquals(s[0]);
        EqualsSurvivesStrip(s[1..]);
        assert s == [s[0]] + s[1..];
      } else if IsSpace(s[|s| - 1]) {
        SpaceIsNoEquals(s[|s| - 1]);
        EqualsSurvivesStrip(s[..|s| - 1]);
        assert s == s[..|s| - 1] + [s[|s| - 1]];
      }
    }
  }

  lemma {:induction false} FrontOfFront(s: string, c: char)
    requires '=' in s
    ensures '=' in s + [c] && Before(s + [c]) == Before(s)
  {
    if s[0] != '=' {
      FrontOfFront(s[1..], c);
      assert (s + [c])[1..] == s[1..] + [c];
    }
  }

  lemma {:induction false} LeftStripOpens(s: string)
    requires '=' in s
    ensures '=' in Strip(s) && LeftStrip(s) != "" && LeftStrip(s)[0] == Strip(s)[0]
    decreases |s|
  {
    EqualsSurvivesStrip(s);
    hide IsSpace;
    if IsSpace(s[0]) {
      assert s == [s[0]] + s[1..];
      assert s[0] != '=' by {
        SpaceIsNoEquals(s[0]);
      }
      LeftStripOpens(s[1..]);
    } else if IsSpace(s[|s| - 1]) {
      SpaceIsNoEquals(s[|s| - 1]);
      assert s == s[..|s| - 1] + [s[|s| - 1]];
      LeftStripOpens(s[..|s| - 1]);
    }
  }

  lemma SpaceIsNoEquals(c: char)
    requires IsSpace(c)
    ensures c != '='
  {
  }

  lemma {:induction false} StripKeepsKey(s: string)
    requires '=' in s
    ensures '=' in Strip(s) && Strip(Before(Strip(s))) == Strip(Before(s))
    ensures LeftStrip(s) != "" && LeftStrip(s)[0] == Strip(s)[0]
    decreases |s|
  {
    EqualsSurvivesStrip(s);
    LeftStripOpens(s);
    hide LeftStrip, IsSpace;
    if IsSpace(s[0]) {
      SpaceIsNoEquals(s[0]);
      assert s == [s[0]] + s[1..];
      StripKeepsKey(s[1..]);
      assert Before(s) == [s[0]] + Before(s[1..]);
      assert Before(s)[1..] == Before(s[1..]);
    } else if IsSpace(s[|s| - 1]) {
      SpaceIsNoEquals(s[|s| - 1]);
      var front := s[..|s| - 1];
      assert s == front + [s[|s| - 1]];
      StripKeepsKey(front);
      FrontOfFront(front, s[|s| - 1]);
    }
  }

  /** The reader and the updater see the same key on every line. */
  lemma KeysAgree(raw: string)
    ensures KeyOf(raw) == match Setting(raw) case Some((key, _)) => Some(key) case None => None
  {
    EqualsSurvivesStrip(raw);
    if '=' in raw {
      StripKeepsKey(raw);
    }
  }

  lemma {:induction false} StripShortens(s: string)
    ensures |Strip(s)| <= |s| && (|Strip(s)| == |s| ==> Strip(s) == s)
    decreases |s|
  {
    if s != "" {
      if IsSpace(s[0]) {
        StripShortens(s[1..]);
      } else if IsSpace(s[|s| - 1]) {
        StripShortens(s[..|s| - 1]);
      }
    }
  }

  lemma {:induction false} StripCharShortens(s: string, c: char)
    ensures |StripChar(s, c)| <= |s| && (|StripChar(s, c)| == |s| ==> StripChar(s, c) == s)
    decreases |s|
  {
    if s != "" {
      if s[0] == c {
        StripCharShortens(s[1..], c);
      } else if s[|s| - 1] == c {
        StripCharShortens(s[..|s| - 1], c);
      }
    }
  }

  lemma {:induction false} StripIgnoresTail(s: string, c: char)
    requires IsSpace(c)
    ensures Strip(s + [c]) == Strip(s)
    decreases |s|
  {
    assert (s + [c])[..|s|] == s;
    if s != "" && IsSpace(s[0]) {
      StripIgnoresTail(s[1..], c);
      assert (s + [c])[1..] == s[1..] + [c];
    } else if s == "" {
      assert ([c])[1..] == "";
    }
  }

  lemma AfterOfTail(s: string)
    requires s != "" && s[0] != '=' && '=' in s
    ensures '=' in s[1..] && After(s[1..]) == After(s)
  {
    assert Before(s) == [s[0]] + Before(s[1..]);
    assert s[1..][|Before(s[1..])| + 1..] == s[|Before(s)| + 1..];
  }

  lemma AfterOfFront(s: string, c: char)
    requires '=' in s
    ensures '=' in s + [c] && After(s + [c]) == After(s) + [c]
  {
    FrontOfFront(s, c);
    assert (s + [c])[|Before(s)| + 1..] == s[|Before(s)| + 1..] + [c];
  }

  lemma {:induction false} StripKeepsValue(s: string)
    requires '=' in s
    ensures '=' in Strip(s) && Strip(After(Strip(s))) == Strip(After(s))
    decreases |s|
  {
    EqualsSurvivesStrip(s);
    if IsSpace(s[0]) {
      AfterOfTail(s);
      StripKeepsValue(s[1..]);
    } else if IsSpace(s[|s| - 1]) {
      var front, last := s[..|s| - 1], s[|s| - 1];
      assert s == front + [last];
      StripKeepsValue(front);
      AfterOfFront(front, last);
      StripIgnoresTail(After(front), last);
    }
  }

  // ---- Assignments ----------------------------------------------------------

  /** What the reader makes of a value. */
  function Seen(value: string): (seen: string) {
    Unquoted(Strip(value))
  }

  lemma SeenUnchanged(value: string)
    ensures Seen(value) == value <==> Strip(value) == value && Unquoted(value) == value
  {
    StripShortens(value);
    StripCharShortens(Strip(value), '"');
    StripCharShortens(StripChar(Strip(value), '"'), '\'');
  }

  /** A key that can stand in front of an equals sign. */
  predicate CleanKey(key: string) {
    OneLine(key) && Strip(key) == key && '=' !in key && (key != "" ==> key[0] != '#')
  }

  lemma {:induction false} BeforeFirstEquals(key: string, rest: string)
    requires '=' !in key
    ensures '=' in key + "=" + rest && Before(key + "=" + rest) == key && After(key + "=" + rest) == rest
  {
    assert (key + "=" + rest)[|key|] == '=';
    if key != "" {
      BeforeFirstEquals(key[1..], rest);
      assert (key + "=" + rest)[1..] == key[1..] + "=" + rest;
    }
  }

  /** A clean key stands in front of its line, whatever is stripped. */
  lemma AssignmentOpens(key: string, value: string)
    requires CleanKey(key)
    ensures var line := Assignment((key, value));
      line != "" && !IsSpace(line[0]) && line[0] != '#'
  {
    if key != "" {
      StripShortens(key[1..]);
      assert !IsSpace(key[0]) && Assignment((key, value))[0] == key[0];
    } else {
      assert Assignment((key, value))[0] == '=';
    }
  }

  lemma AssignmentIsRead(key: string, value: string)
    requires CleanKey(key)
    ensures KeyOf(Assignment((key, value))) == Some(key)
    ensures Setting(Assignment((key, value))) == Some((key, Seen(value)))
  {
    var line := Assignment((key, value));
    AssignmentOpens(key, value);
    BeforeFirstEquals(key, value);
    StripKeepsKey(line);
    StripKeepsValue(line);
    hide IsSpace, Strip, Before, OneLine;
  }

  // ---- Reading after an update ----------------------------------------------

  /** A dictionary of clean keys and values of one line. */
  ghost predicate Storable(updates: Updates) {
    && Distinct(updates)
    && forall i :: 0 <= i < |updates| ==> CleanKey(updates[i].0) && OneLine(updates[i].1)
  }

  lemma {:induction false} CountedIsRead(lines: seq<string>, key: string)
    ensures key in Values(lines) <==> Count(lines, key) > 0
  {
    if lines != [] {
      CountedIsRead(lines[..|lines| - 1], key);
      KeysAgree(lines[|lines| - 1]);
    }
  }

  lemma ReplacedKeepsKey(above: seq<string>, raw: string, updates: Updates)
    requires Storable(updates)
    ensures KeyOf(Replaced(above, raw, updates)) == KeyOf(raw)
  {
    if KeyOf(raw).Some? && Lookup(updates, KeyOf(raw).value).Some? {
      AssignmentIsRead(KeyOf(raw).value, Lookup(updates, KeyOf(raw).value).value);
    }
  }

  lemma {:induction false} RewrittenKeepsCounts(lines: seq<string>, updates: Updates, key: string)
    requires Storable(updates)
    ensures Count(Rewritten(lines, updates), key) == Count(lines, key)
  {
    if lines != [] {
      var above, raw := lines[..|lines| - 1], lines[|lines| - 1];
      RewrittenKeepsCounts(above, updates, key);
      ReplacedKeepsKey(above, raw, updates);
      assert (Rewritten(above, updates) + [Replaced(above, raw, updates)])[..|above|] == Rewritten(above, updates);
    }
  }

  /** The value of one key in a map. */
  function At(values: map<string, string>, key: string): (value: Option<string>) {
    if key in values then Some(values[key]) else None
  }

  /** The value that a rewritten line of the key is read as. */
  function NewValue(updates: Updates, key: string): (value: Option<string>) {
    match Lookup(updates, key)
    case Some(value) => Some(Seen(value))
    case None => None
  }

  lemma ReplacedReads(above: seq<string>, raw: string, updates: Updates)
    requires Storable(updates)
    ensures match KeyOf(raw)
      case None => Setting(Replaced(above, raw, updates)) == Setting(raw) == None
      case Some(key) =>
        && Setting(raw).Some?
        && Setting(Replaced(above, raw, updates)) == Some((key,
             if Count(above, key) == 0 && Lookup(updates, key).Some? then NewValue(updates, key).value
             else Setting(raw).value.1))
  {
    KeysAgree(raw);
    if KeyOf(raw).Some? && Lookup(updates, KeyOf(raw).value).Some? {
      AssignmentIsRead(KeyOf(raw).value, Lookup(updates, KeyOf(raw).value).value);
    }
  }

  /** Only a key that stands on exactly one line is read anew from rewritten lines. */
  lemma {:induction false} RewrittenReads(lines: seq<string>, updates: Updates, key: string)
    requires Storable(updates)
    ensures At(Values(Rewritten(lines, updates)), key)
         == if Count(lines, key) == 1 && Lookup(updates, key).Some? then NewValue(updates, key)
            else At(Values(lines), key)
  {
    if lines != [] {
      var above, raw := lines[..|lines| - 1], lines[|lines| - 1];
      RewrittenReads(above, updates, key);
      CountedIsRead(above, key);
      KeysAgree(raw);
      ReplacedReads(above, raw, updates);
      assert (Rewritten(above, updates) + [Replaced(above, raw, updates)])[..|above|] == Rewritten(above, updates);
    }
  }

  lemma ValuesBehind(lines: seq<string>, raw: string)
    ensures Values(lines + [raw])
         == match Setting(raw) case None => Values(lines) case Some((key, value)) => Values(lines)[key := value]
  {
    assert (lines + [raw])[..|lines|] == lines;
  }

  lemma AssignmentsBehind(lines: seq<string>, left: Updates)
    requires left != []
    ensures lines + Assignments(left)
         == (lines + Assignments(left[..|left| - 1])) + [Assignment(left[|left| - 1])]
  {
    var front, last := left[..|left| - 1], [Assignment(left[|left| - 1])];
    assert Assignments(left) == Assignments(front) + last;
    hide Assignments, Assignment;
    SumRegroups(lines, Assignments(front), last);
  }

  lemma {:induction false} AppendedReads(lines: seq<string>, updates: Updates, key: string)
    requires forall i :: 0 <= i < |updates| ==> CleanKey(updates[i].0)
    ensures At(Values(lines + Assignments(updates)), key)
         == if Lookup(updates, key).Some? then NewValue(updates, key) else At(Values(lines), key)
  {
    if updates == [] {
      assert lines + Assignments(updates) == lines;
    } else {
      var front, last := updates[..|updates| - 1], updates[|updates| - 1];
      AppendedReads(lines, front, key);
      AssignmentIsRead(last.0, last.1);
      AssignmentsBehind(lines, updates);
      ValuesBehind(lines + Assignments(front), Assignment(last));
      hide Values, Setting, CleanKey, Seen, Assignment, Assignments;
    }
  }

  lemma EmptyLineReadsNothing(lines: seq<string>)
    ensures Values(lines + [""]) == Values(lines)
  {
    ValuesBehind(lines, "");
  }

  lemma {:induction false} MissingAreUpdates(lines: seq<string>, updates: Updates, i: nat)
    requires i < |Missing(lines, updates)|
    ensures Missing(lines, updates)[i] in updates
  {
    var front := updates[..|updates| - 1];
    if i < |Missing(lines, front)| {
      MissingAreUpdates(lines, front, i);
    }
  }

  lemma MissingStorable(lines: seq<string>, updates: Updates)
    requires Storable(updates)
    ensures forall i :: 0 <= i < |Missing(lines, updates)| ==>
      CleanKey(Missing(lines, updates)[i].0) && OneLine(Missing(lines, updates)[i].1)
  {
    forall i | 0 <= i < |Missing(lines, updates)|
      ensures CleanKey(Missing(lines, updates)[i].0) && OneLine(Missing(lines, updates)[i].1)
    {
      MissingAreUpdates(lines, updates, i);
    }
  }

  /** The lines in front of the appended assignments. */
  function Opening(result: seq<string>, left: Updates): (lines: seq<string>)
    ensures Extended(result, left) == lines + Assignments(left)
  {
    if left != [] && result != [] && result[|result| - 1] != "" then result + [""] else result
  }

  lemma OpeningReads(result: seq<string>, left: Updates)
    ensures Values(Opening(result, left)) == Values(result)
  {
    EmptyLineReadsNothing(result);
  }

  lemma {:induction false} RewrittenStaysOneLine(lines: seq<string>, updates: Updates)
    requires Storable(updates)
    requires Separate(lines)
    ensures Separate(Rewritten(lines, updates))
  {
    if lines != [] {
      RewrittenStaysOneLine(lines[..|lines| - 1], updates);
    }
  }

  lemma {:induction false} AssignmentsAreSeparate(updates: Updates)
    requires forall i :: 0 <= i < |updates| ==> OneLine(updates[i].0) && OneLine(updates[i].1)
    ensures Separate(Assignments(updates))
  {
    forall i | 0 <= i < |updates| ensures OneLine(Assignment(updates[i])) {
      var key, value := updates[i].0, updates[i].1;
      assert OneLine(key) && OneLine(value) && OneLine("=");
    }
  }

  lemma SeparateTogether(left: seq<string>, right: seq<string>)
    requires Separate(left) && Separate(right)
    ensures Separate(left + right)
  {
  }

  lemma UpdatedLinesAreLines(lines: seq<string>, updates: Updates)
    requires Storable(updates) && Separate(lines)
    ensures Separate(Extended(Rewritten(lines, updates), Missing(lines, updates)))
  {
    var result, left := Rewritten(lines, updates), Missing(lines, updates);
    RewrittenStaysOneLine(lines, updates);
    MissingStorable(lines, updates);
    AssignmentsAreSeparate(left);
    SeparateTogether(result, [""]);
    SeparateTogether(Opening(result, left), Assignments(left));
  }

  /** An updated text splits into the updated lines. */
  lemma UpdatedSplits(text: string, updates: Updates)
    requires Storable(updates)
    ensures SplitLines(Updated(text, updates))
         == if UpdatedLines(text, updates) == [] then [""] else UpdatedLines(text, updates)
  {
    UpdatedLinesAreLines(SplitLines(text), updates);
    SplitUndoesContent(UpdatedLines(text, updates));
  }

  function Reading(text: string): (values: map<string, string>) {
    Values(SplitLines(text))
  }

  /** Reading after an update: an updated key has its new value unless it stood on
      several lines already; every other key is as before. */
  lemma UpdateReads(text: string, updates: Updates, key: string)
    requires Storable(updates)
    ensures At(Reading(Updated(text, updates)), key)
         == if Lookup(updates, key).Some? && Count(SplitLines(text), key) <= 1 then NewValue(updates, key)
            else At(Reading(text), key)
  {
    var lines := SplitLines(text);
    var result, left := Rewritten(lines, updates), Missing(lines, updates);
    UpdatedSplits(text, updates);
    EmptyLineReadsNothing([]);
    MissingStorable(lines, updates);
    AppendedReads(Opening(result, left), left, key);
    OpeningReads(result, left);
    MissingLookup(lines, updates, key);
    RewrittenReads(lines, updates, key);
    CountedIsRead(lines, key);
  }

  /** The old map overridden by the updates. */
  function Overridden(values: map<string, string>, updates: Updates): (r: map<string, string>) {
    if updates == [] then values
    else
      var last := updates[|updates| - 1];
      Overridden(values, updates[..|updates| - 1])[last.0 := last.1]
  }

  lemma {:induction false} OverriddenAt(values: map<string, string>, updates: Updates, key: string)
    ensures At(Overridden(values, updates), key)
         == if Lookup(updates, key).Some? then Lookup(updates, key) else At(values, key)
  {
    if updates != [] {
      OverriddenAt(values, updates[..|updates| - 1], key);
    }
  }

  lemma {:induction false} LookupFinds(updates: Updates, i: nat)
    requires Distinct(updates) && i < |updates|
    ensures Lookup(updates, updates[i].0) == Some(updates[i].1)
  {
    if i < |updates| - 1 {
      LookupFinds(updates[..|updates| - 1], i);
    }
  }

  /** The update of one key is read as intended. */
  ghost predicate Honoured(text: string, update: (string, string)) {
    if Count(SplitLines(text), update.0) <= 1
    then Strip(update.1) == update.1 && Unquoted(update.1) == update.1
    else At(Reading(text), update.0) == Some(update.1)
  }

  lemma HonouredAt(text: string, updates: Updates, i: nat)
    requires Storable(updates) && i < |updates|
    ensures Honoured(text, updates[i]) <==> At(Reading(Updated(text, updates)), updates[i].0) == Some(updates[i].1)
  {
    UpdateReads(text, updates, updates[i].0);
    LookupFinds(updates, i);
    SeenUnchanged(updates[i].1);
  }

  lemma SameEverywhere(left: map<string, string>, right: map<string, string>)
    requires forall key :: At(left, key) == At(right, key)
    ensures left == right
  {
    forall key ensures key in left <==> key in right {
      assert At(left, key) == At(right, key);
    }
    forall key | key in left ensures left[key] == right[key] {
      assert At(left, key) == At(right, key);
    }
  }

  /** Reading after an update gives the old map overridden by the updates exactly when
      every updated key stands on one line at most and its value survives reading, or
      stands on several lines and the last one already says so. */
  lemma UpdateIsRead(text: string, updates: Updates)
    requires Storable(updates)
    ensures Reading(Updated(text, updates)) == Overridden(Reading(text), updates)
      <==> forall i :: 0 <= i < |updates| ==> Honoured(text, updates[i])
  {
    var got, want := Reading(Updated(text, updates)), Overridden(Reading(text), updates);
    forall i | 0 <= i < |updates|
      ensures Honoured(text, updates[i]) <==> At(got, updates[i].0) == At(want, updates[i].0)
    {
      HonouredAt(text, updates, i);
      OverriddenAt(Reading(text), updates, updates[i].0);
      LookupFinds(updates, i);
    }
    if forall i :: 0 <= i < |updates| ==> Honoured(text, updates[i]) {
      forall key ensures At(got, key) == At(want, key) {
        OverriddenAt(Reading(text), updates, key);
        UpdateReads(text, updates, key);
        if Lookup(updates, key).Some? {
          var i :| 0 <= i < |updates| && updates[i] == (key, Lookup(updates, key).value);
          assert updates[i].0 == key;
        }
      }
      SameEverywhere(got, want);
    }
  }

  lemma TwoLinesRead(key: string, first: string, last: string)
    requires CleanKey(key)
    ensures var lines := [Assignment((key, first)), Assignment((key, last))];
      Count(lines, key) == 2 && At(Values(lines), key) == Some(Seen(last))
  {
    AssignmentIsRead(key, first);
    AssignmentIsRead(key, last);
    var top, lines := [Assignment((key, first))], [Assignment((key, first)), Assignment((key, last))];
    assert lines == top + [Assignment((key, last))] && lines[..1] == top && top[..0] == [];
    ValuesBehind(top, Assignment((key, last)));
    assert Count(top, key) == Count([], key) + 1;
    assert Count(lines, key) == Count(lines[..1], key) + 1;
  }

  lemma OneUpdateIsStorable(key: string, value: string)
    requires CleanKey(key) && OneLine(value)
    ensures Storable([(key, value)]) && Lookup([(key, value)], key) == Some(value)
  {
  }

  lemma TwoAssignmentsAreSeparate(key: string, first: string, last: string)
    requires OneLine(key) && OneLine(first) && OneLine(last)
    ensures Separate([Assignment((key, first)), Assignment((key, last))])
  {
    assert OneLine("=");
  }

  /** A repeated key: the update rewrites its first line, but the last one is read. */
  lemma RepeatedKeyHidesUpdate(key: string, first: string, last: string, value: string)
    requires CleanKey(key) && OneLine(first) && OneLine(last) && OneLine(value)
    ensures var text := Content([Assignment((key, first)), Assignment((key, last))]);
      At(Reading(Updated(text, [(key, value)])), key) == Some(Seen(last))
  {
    var lines := [Assignment((key, first)), Assignment((key, last))];
    TwoAssignmentsAreSeparate(key, first, last);
    OneUpdateIsStorable(key, value);
    SplitUndoesContent(lines);
    TwoLinesRead(key, first, last);
    hide Content, Count, Values, SplitLines, Assignment, Storable, CleanKey, OneLine, Separate, Lookup;
    UpdateReads(Content(lines), [(key, value)], key);
  }

  predicate Plain(c: char) {
    !IsSpace(c) && !IsBreak(c) && c != '=' && c != '#' && c != '"' && c != '\''
  }

  lemma PlainIsClean(c: char)
    requires Plain(c)
    ensures CleanKey([c]) && OneLine([c]) && Seen([c]) == [c]
  {
    assert Strip([c]) == [c];
    assert StripChar([c], '"') == [c];
  }

  lemma LettersArePlain(c: char)
    requires '0' <= c <= 'Z' && c != '='
    ensures Plain(c)
  {
  }

  lemma OfCharacters(key: char, first: char, last: char, value: char)
    requires Plain(key) && Plain(first) && Plain(last) && Plain(value)
    ensures var text := Content([[key, '=', first], [key, '=', last]]);
      At(Reading(Updated(text, [([key], [value])])), [key]) == Some([last])
  {
    PlainIsClean(key);
    PlainIsClean(first);
    PlainIsClean(last);
    PlainIsClean(value);
    assert Assignment(([key], [first])) == [key, '=', first];
    assert Assignment(([key], [last])) == [key, '=', last];
    RepeatedKeyHidesUpdate([key], [first], [last], [value]);
  }

  /** Writing 3 to a file that sets A to 1 and then to 2 still reads 2. */
  lemma UpdateIsHidden() returns (text: string, update: (string, string), seen: string)
    ensures text == Content(["A=1", "A=2"]) && update == ("A", "3") && seen == "2"
    ensures At(Reading(Updated(text, [update])), update.0) == Some(seen)
  {
    var a: char, x: char, y: char, z: char :| a == 'A' && x == '1' && y == '2' && z == '3';
    LettersArePlain(a);
    LettersArePlain(x);
    LettersArePlain(y);
    LettersArePlain(z);
    OfCharacters(a, x, y, z);
    text, update, seen := Content([[a, '=', x], [a, '=', y]]), ([a], [z]), [y];
    assert [[a, '=', x], [a, '=', y]] == ["A=1", "A=2"];
  }

  // ---- Updating twice -------------------------------------------------------

  lemma RewrittenBehind(lines: seq<string>, raw: string, updates: Updates)
    ensures Rewritten(lines + [raw], updates) == Rewritten(lines, updates) + [Replaced(lines, raw, updates)]
  {
    assert (lines + [raw])[..|lines|] == lines;
  }

  lemma {:induction false} RewrittenTwice(lines: seq<string>, updates: Updates)
    requires Storable(updates)
    ensures Rewritten(Rewritten(lines, updates), updates) == Rewritten(lines, updates)
  {
    if lines != [] {
      var above, raw := lines[..|lines| - 1], lines[|lines| - 1];
      RewrittenTwice(above, updates);
      ReplacedKeepsKey(above, raw, updates);
      RewrittenBehind(Rewritten(above, updates), Replaced(above, raw, updates), updates);
      if KeyOf(raw).Some? {
        RewrittenKeepsCounts(above, updates, KeyOf(raw).value);
      }
    }
  }

  lemma AssignmentStays(lines: seq<string>, update: (string, string), updates: Updates)
    requires CleanKey(update.0) && Lookup(updates, update.0) == Some(update.1)
    ensures Replaced(lines, Assignment(update), updates) == Assignment(update)
  {
    AssignmentIsRead(update.0, update.1);
  }

  lemma {:induction false} AppendedStays(lines: seq<string>, left: Updates, updates: Updates)
    requires Rewritten(lines, updates) == lines
    requires forall i :: 0 <= i < |left| ==> CleanKey(left[i].0) && Lookup(updates, left[i].0) == Some(left[i].1)
    ensures Rewritten(lines + Assignments(left), updates) == lines + Assignments(left)
  {
    if left == [] {
      assert lines + Assignments(left) == lines;
    } else {
      var front, last := left[..|left| - 1], left[|left| - 1];
      AppendedStays(lines, front, updates);
      AssignmentStays(lines + Assignments(front), last, updates);
      AssignmentsBehind(lines, left);
      hide Rewritten, Replaced, CleanKey, Lookup, Assignment, Assignments;
      RewrittenBehind(lines + Assignments(front), Assignment(last), updates);
    }
  }

  lemma {:induction false} NothingMissing(lines: seq<string>, updates: Updates)
    requires forall i :: 0 <= i < |updates| ==> Count(lines, updates[i].0) > 0
    ensures Missing(lines, updates) == []
  {
    if updates != [] {
      NothingMissing(lines, updates[..|updates| - 1]);
    }
  }

  /** The missing updates are found among all updates. */
  lemma MissingLookedUp(lines: seq<string>, updates: Updates, i: nat)
    requires Storable(updates) && i < |Missing(lines, updates)|
    ensures var update := Missing(lines, updates)[i];
      CleanKey(update.0) && Lookup(updates, update.0) == Some(update.1)
  {
    MissingAreUpdates(lines, updates, i);
    var j :| 0 <= j < |updates| && updates[j] == Missing(lines, updates)[i];
    LookupFinds(updates, j);
  }

  /** After an update every updated key stands on some line. */
  lemma UpdatedKeyStands(lines: seq<string>, updates: Updates, i: nat)
    requires Storable(updates) && i < |updates|
    ensures Count(Extended(Rewritten(lines, updates), Missing(lines, updates)), updates[i].0) > 0
  {
    var result, left, key := Rewritten(lines, updates), Missing(lines, updates), updates[i].0;
    MissingStorable(lines, updates);
    LookupFinds(updates, i);
    MissingLookup(lines, updates, key);
    AppendedReads(Opening(result, left), left, key);
    OpeningReads(result, left);
    RewrittenKeepsCounts(lines, updates, key);
    CountedIsRead(result, key);
    CountedIsRead(Extended(result, left), key);
  }

  lemma UpdatedLinesStay(lines: seq<string>, updates: Updates)
    requires Storable(updates)
    ensures var all := Extended(Rewritten(lines, updates), Missing(lines, updates));
      Rewritten(all, updates) == all && Missing(all, updates) == []
  {
    var result, left := Rewritten(lines, updates), Missing(lines, updates);
    var opening := Opening(result, left);
    RewrittenTwice(lines, updates);
    RewrittenBehind(result, "", updates);
    forall i | 0 <= i < |left| ensures CleanKey(left[i].0) && Lookup(updates, left[i].0) == Some(left[i].1) {
      MissingLookedUp(lines, updates, i);
    }
    AppendedStays(opening, left, updates);
    forall i | 0 <= i < |updates| ensures Count(Extended(result, left), updates[i].0) > 0 {
      UpdatedKeyStands(lines, updates, i);
    }
    NothingMissing(Extended(result, left), updates);
  }

  /** The same update a second time changes no character, repeated keys or not. */
  lemma UpdatingTwice(text: string, updates: Updates)
    requires Storable(updates)
    ensures Updated(Updated(text, updates), updates) == Updated(text, updates)
  {
    UpdatedSplits(text, updates);
    UpdatedLinesStay(SplitLines(text), updates);
    if UpdatedLines(text, updates) == [] {
      UpdatedOfNothing(text, updates);
    }
  }

  lemma UpdatedOfNothing(text: string, updates: Updates)
    requires Storable(updates) && UpdatedLines(text, updates) == []
    ensures updates == [] && Rewritten([""], updates) == [""]
  {
    RewrittenBehind([], "", updates);
    if updates != [] {
      UpdatedKeyStands(SplitLines(text), updates, 0);
    }
  }

  // ---- The other lines ------------------------------------------------------

  lemma {:induction false} RewrittenAt(lines: seq<string>, updates: Updates, i: nat)
    requires i < |lines|
    ensures Rewritten(lines, updates)[i] == Replaced(lines[..i], lines[i], updates)
  {
    if i < |lines| - 1 {
      RewrittenAt(lines[..|lines| - 1], updates, i);
      assert lines[..|lines| - 1][..i] == lines[..i];
    }
  }

  /** Every line keeps its place and its text, unless it is the first of an updated key. */
  lemma OtherLinesStay(text: string, updates: Updates, i: nat)
    requires i < |SplitLines(text)|
    ensures var lines := SplitLines(text);
      && i < |UpdatedLines(text, updates)|
      && (UpdatedLines(text, updates)[i] != lines[i] ==>
            && KeyOf(lines[i]).Some?
            && Lookup(updates, KeyOf(lines[i]).value).Some?
            && forall j :: 0 <= j < i ==> KeyOf(lines[j]) != KeyOf(lines[i]))
  {
    var lines := SplitLines(text);
    RewrittenAt(lines, updates, i);
    if KeyOf(lines[i]).Some? {
      var key := KeyOf(lines[i]).value;
      forall j | 0 <= j < i && KeyOf(lines[j]) == Some(key) ensures Count(lines[..i], key) > 0 {
        CountedLine(lines[..i], j, key);
      }
    }
  }

  lemma {:induction false} CountedLine(lines: seq<string>, j: nat, key: string)
    requires j < |lines| && KeyOf(lines[j]) == Some(key)
    ensures Count(lines, key) > 0
  {
    if j < |lines| - 1 {
      CountedLine(lines[..|lines| - 1], j, key);
    }
  }
}
