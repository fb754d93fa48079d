/**
 What reading and updating an env file do, told from its lines: which line names a
 key, which value it holds, and what every line of the new file is.
 */
module EnvContracts {
  import opened Wrappers
  import opened PlainText
  import opened EnvFile
  import opened EnvTheorems

  // ---- Lines ----------------------------------------------------------------

  /** The text of lines with what ended each of them. */
  function Glued(lines: seq<string>, ends: seq<string>): (text: string)
    requires |lines| == |ends|
  {
    if lines == [] then "" else lines[0] + ends[0] + Glued(lines[1..], ends[1..])
  }

  /** Each line ends with one line break, the last one perhaps with the text. */
  ghost predicate Ends(lines: seq<string>, ends: seq<string>) {
    && |lines| == |ends|
    && (forall i | 0 <= i < |ends| :: |ends[i]| <= 1 && (ends[i] != "" ==> IsBreak(ends[i][0])))
    && (forall i | 0 <= i < |ends| && ends[i] == "" :: i == |ends| - 1 && lines[i] != "")
  }

  lemma OneLineMore(line: string, end: string, lines: seq<string>, ends: seq<string>)
    requires Ends(lines, ends) && |end| == 1 && IsBreak(end[0])
    ensures Ends([line] + lines, [end] + ends)
    ensures Glued([line] + lines, [end] + ends) == line + end + Glued(lines, ends)
  {
    hide IsBreak;
    RestOfSum(line, lines);
    RestOfSum(end, ends);
  }

  lemma OpenLine(line: string)
    requires line != ""
    ensures Ends([line], [""]) && Glued([line], [""]) == line
  {
    assert [line][1..] == [] && [""][1..] == [];
    assert Glued([line], [""]) == line + "" + "" == line;
  }

  lemma NothingEnds()
    ensures SplitLines("") == [] && Ends([], []) && Glued([], []) == ""
  {
  }

  lemma TextAround(text: string, n: nat)
    requires n < |text|
    ensures text == text[..n] + [text[n]] + text[n + 1..]
  {
  }

  lemma SplitOnce(text: string)
    requires text != ""
    ensures var line := FirstLine(text);
      SplitLines(text) == if |line| == |text| then [line] else [line] + SplitLines(text[|line| + 1..])
  {
  }

  /** Splitting loses nothing but the line breaks. */
  lemma {:induction false} LinesMakeText(text: string) returns (ends: seq<string>)
    ensures Ends(SplitLines(text), ends) && Glued(SplitLines(text), ends) == text
    decreases |text|
  {
    hide IsBreak, OneLine, Glued, Ends;
    if text == "" {
      ends := [];
      NothingEnds();
    } else {
      var line := FirstLine(text);
      SplitOnce(text);
      if |line| == |text| {
        ends := [""];
        OpenLine(line);
      } else {
        var rest := text[|line| + 1..];
        var others := LinesMakeText(rest);
        ends := [[text[|line|]]] + others;
        OneLineMore(line, [text[|line|]], SplitLines(rest), others);
        TextAround(text, |line|);
      }
    }
  }

  // ---- One line -------------------------------------------------------------

  /** The first character that is no white space is a number sign. */
  ghost predicate Comment(line: string) {
    exists i | 0 <= i < |line| :: line[i] == '#' && forall j | 0 <= j < i :: IsSpace(line[j])
  }

  /** The first equals sign of a line that is no comment stands behind the key. */
  ghost predicate Assigns(line: string, n: nat, key: string) {
    && n < |line|
    && line[n] == '='
    && '=' !in line[..n]
    && !Comment(line)
    && key == Strip(line[..n])
  }

  ghost predicate Sets(line: string, key: string) {
    exists n :: Assigns(line, n, key)
  }

  /** The value behind position `n`: first without the space around it, then without
      double and then without single quotes. */
  function ValueBehind(line: string, n: nat): (value: string)
    requires n < |line|
  {
    StripChar(StripChar(Strip(line[n + 1..]), '"'), '\'')
  }

  /** Every quote of one kind goes from both ends. */
  lemma {:induction false} StripCharMeans(s: string, c: char) returns (low: nat, high: nat)
    ensures low <= high <= |s| && StripChar(s, c) == s[low..high]
    ensures forall i | 0 <= i < |s| && !(low <= i < high) :: s[i] == c
    ensures low < high ==> s[low] != c && s[high - 1] != c
    decreases |s|
  {
    if s == "" {
      low, high := 0, 0;
    } else if s[0] == c {
      low, high := StripCharMeans(s[1..], c);
      low, high := low + 1, high + 1;
      assert s[1..][low - 1..high - 1] == s[low..high];
      forall i | 0 <= i < |s| && !(low <= i < high) ensures s[i] == c {
        assert i > 0 ==> s[1..][i - 1] == s[i];
      }
    } else if s[|s| - 1] == c {
      var front := s[..|s| - 1];
      low, high := StripCharMeans(front, c);
      assert front[low..high] == s[low..high];
      forall i | 0 <= i < |s| && !(low <= i < high) ensures s[i] == c {
        assert i < |front| ==> front[i] == s[i];
      }
    } else {
      low, high := 0, |s|;
    }
  }

  lemma {:induction false} CommentMeans(line: string)
    ensures Comment(line) <==> LeftStrip(line) != "" && LeftStrip(line)[0] == '#'
  {
    if line != "" {
      if IsSpace(line[0]) {
        var rest := line[1..];
        CommentMeans(rest);
        if Comment(rest) {
          var i :| 0 <= i < |rest| && rest[i] == '#' && forall j | 0 <= j < i :: IsSpace(rest[j]);
          assert line[i + 1] == '#' && forall j | 0 <= j < i + 1 :: j > 0 ==> line[j] == rest[j - 1];
        }
        if Comment(line) {
          var i :| 0 <= i < |line| && line[i] == '#' && forall j | 0 <= j < i :: IsSpace(line[j]);
          NumberSignIsNoSpace();
          assert rest[i - 1] == '#' && forall j | 0 <= j < i - 1 :: rest[j] == line[j + 1];
        }
      } else {
        assert line[0] == '#' ==> Comment(line);
      }
    }
  }

  lemma NumberSignIsNoSpace()
    ensures !IsSpace('#')
  {
  }

  /** The updater's key is the key of the assignment. */
  lemma KeyMeans(line: string, n: nat, key: string)
    ensures Assigns(line, n, key) <==> KeyOf(line) == Some(key) && n == |Before(line)|
  {
    CommentMeans(line);
    if '=' in line && n < |line| && line[n] == '=' {
      FirstEquals(line, n);
    }
  }

  lemma FirstEquals(line: string, n: nat)
    requires '=' in line && n < |line| && line[n] == '='
    ensures '=' !in line[..n] <==> n == |Before(line)|
  {
    var m := |Before(line)|;
    assert m <= n by {
      assert Before(line) == line[..m];
      assert forall i | 0 <= i < m :: line[..m][i] != '=';
    }
    if m < n {
      assert line[..n][m] == '=';
    }
  }

  lemma SetsMeans(line: string, key: string)
    ensures Sets(line, key) <==> KeyOf(line) == Some(key)
  {
    if '=' in line {
      KeyMeans(line, |Before(line)|, key);
    }
    forall n | Assigns(line, n, key) ensures KeyOf(line) == Some(key) {
      KeyMeans(line, n, key);
    }
  }

  // ---- Reading --------------------------------------------------------------

  /** A key is read when some line sets it, with the value of the last such line. */
  ghost predicate ReadAs(lines: seq<string>, values: map<string, string>) {
    && (forall key :: key in values <==> exists i | 0 <= i < |lines| :: Sets(lines[i], key))
    && (forall i, n, key | 0 <= i < |lines| && Assigns(lines[i], n, key)
          && (forall j | i < j < |lines| :: !Sets(lines[j], key)) ::
          key in values && values[key] == ValueBehind(lines[i], n))
  }

  lemma SettingMeans(line: string, n: nat, key: string)
    requires Assigns(line, n, key)
    ensures Setting(line) == Some((key, ValueBehind(line, n)))
  {
    KeyMeans(line, n, key);
    KeysAgree(line);
    StripKeepsValue(line);
  }

  /** Some line of `lines` sets the key. */
  ghost predicate SetBy(lines: seq<string>, key: string) {
    exists i | 0 <= i < |lines| :: Sets(lines[i], key)
  }

  lemma SetByMore(lines: seq<string>, raw: string, key: string)
    ensures SetBy(lines + [raw], key) <==> SetBy(lines, key) || Sets(raw, key)
  {
    var all := lines + [raw];
    if i :| 0 <= i < |lines| && Sets(lines[i], key) {
      assert all[i] == lines[i];
    }
    if Sets(raw, key) {
      assert all[|lines|] == raw;
    }
  }

  lemma {:induction false} CountMeans(lines: seq<string>, key: string)
    ensures Count(lines, key) > 0 <==> SetBy(lines, key)
  {
    if lines != [] {
      var front, last := lines[..|lines| - 1], lines[|lines| - 1];
      CountMeans(front, key);
      SetByMore(front, last, key);
      SetsMeans(last, key);
      assert lines == front + [last];
    }
  }

  lemma ReadMore(lines: seq<string>, values: map<string, string>, raw: string)
    requires ReadAs(lines, values)
    ensures ReadAs(lines + [raw],
              match Setting(raw) case None => values case Some((key, value)) => values[key := value])
  {
    var all := lines + [raw];
    var next := match Setting(raw) case None => values case Some((key, value)) => values[key := value];
    KeysAgree(raw);
    forall key ensures key in next <==> SetBy(all, key) {
      SetByMore(lines, raw, key);
      SetsMeans(raw, key);
      assert key in values <==> SetBy(lines, key);
    }
    forall i, n, key | 0 <= i < |all| && Assigns(all[i], n, key) && forall j | i < j < |all| :: !Sets(all[j], key)
      ensures key in next && next[key] == ValueBehind(all[i], n)
    {
      assert SetBy(all, key) by {
        assert Sets(all[i], key);
      }
      if i == |lines| {
        SettingMeans(raw, n, key);
      } else {
        assert all[|lines|] == raw;
        SetsMeans(raw, key);
        assert all[i] == lines[i];
        assert forall j | i < j < |lines| :: lines[j] == all[j];
      }
    }
  }

  lemma {:induction false} ValuesAreRead(lines: seq<string>)
    ensures ReadAs(lines, Values(lines))
  {
    if lines != [] {
      var front, last := lines[..|lines| - 1], lines[|lines| - 1];
      ValuesAreRead(front);
      ReadMore(front, Values(front), last);
      assert lines == front + [last];
    }
  }

  // ---- Updating -------------------------------------------------------------

  /** The line is the first one to set the key. */
  ghost predicate SetsFirst(lines: seq<string>, i: nat, key: string)
    requires i < |lines|
  {
    Sets(lines[i], key) && !SetBy(lines[..i], key)
  }

  /** The updates whose keys no line sets, as lines, in the order of the updates. */
  ghost function Additions(lines: seq<string>, updates: Updates): (added: seq<string>) {
    if updates == [] then []
    else
      var first := if SetBy(lines, updates[0].0) then [] else [updates[0].0 + "=" + updates[0].1];
      first + Additions(lines, updates[1..])
  }

  /** The first line of an updated key holds its new value, the other lines stay. */
  ghost predicate LinesEdited(lines: seq<string>, updates: Updates, result: seq<string>) {
    && |result| == |lines|
    && (forall i, k | 0 <= i < |lines| && 0 <= k < |updates| && SetsFirst(lines, i, updates[k].0) ::
          result[i] == updates[k].0 + "=" + updates[k].1)
    && (forall i | 0 <= i < |lines| && (forall k | 0 <= k < |updates| :: !SetsFirst(lines, i, updates[k].0)) ::
          result[i] == lines[i])
  }

  /** The text of a file with these lines, each with its line end; a file without lines
      is an empty line. */
  function Written(lines: seq<string>): (text: string) {
    if lines == [] then "" else lines[0] + "\n" + Written(lines[1..])
  }

  /** The edited lines, then the additions, set off by an empty line. */
  ghost predicate Edited(lines: seq<string>, updates: Updates, content: string) {
    exists kept | LinesEdited(lines, updates, kept) ::
      var added := Additions(lines, updates);
      var gap := if added != [] && kept != [] && kept[|kept| - 1] != "" then [""] else [];
      content == if kept + gap + added == [] then "\n" else Written(kept + gap + added)
  }

  lemma {:induction false} ContentIsWritten(lines: seq<string>)
    ensures Content(lines) == if lines == [] then "\n" else Written(lines)
  {
    if lines != [] {
      ContentOpens(lines);
      if |lines| > 1 {
        ContentIsWritten(lines[1..]);
      } else {
        assert Written(lines[1..]) == "";
      }
    }
  }

  lemma {:induction false} AdditionsAppend(lines: seq<string>, updates: Updates, last: (string, string))
    ensures Additions(lines, updates + [last])
         == Additions(lines, updates) + if SetBy(lines, last.0) then [] else [last.0 + "=" + last.1]
  {
    if updates == [] {
      assert updates + [last] == [last] && [last][1..] == [];
    } else {
      AdditionsAppend(lines, updates[1..], last);
      FrontOfSum(updates, [last]);
      assert (updates + [last])[0] == updates[0];
    }
  }

  lemma AssignmentsAppend(updates: Updates, last: (string, string))
    ensures Assignments(updates + [last]) == Assignments(updates) + [last.0 + "=" + last.1]
  {
    assert (updates + [last])[..|updates|] == updates;
  }

  lemma {:induction false} MissingAreAdded(lines: seq<string>, updates: Updates)
    ensures Assignments(Missing(lines, updates)) == Additions(lines, updates)
  {
    hide Additions, Assignments, SetBy, Count;
    if updates == [] {
      NothingIsAdded(lines);
    } else {
      var front, last := updates[..|updates| - 1], updates[|updates| - 1];
      MissingAreAdded(lines, front);
      AdditionsAppend(lines, front, last);
      CountMeans(lines, last.0);
      assert updates == front + [last];
      AssignmentsAppend(Missing(lines, front), last);
      assert Missing(lines, front) + [] == Missing(lines, front);
      assert Additions(lines, front) + [] == Additions(lines, front);
    }
  }

  lemma NothingIsAdded(lines: seq<string>)
    ensures Assignments([]) == [] == Additions(lines, [])
  {
  }

  lemma ReplacedMeans(lines: seq<string>, updates: Updates, i: nat)
    requires Distinct(updates) && i < |lines|
    ensures var line := Replaced(lines[..i], lines[i], updates);
      && (forall k | 0 <= k < |updates| && SetsFirst(lines, i, updates[k].0) ::
            line == updates[k].0 + "=" + updates[k].1)
      && ((forall k | 0 <= k < |updates| :: !SetsFirst(lines, i, updates[k].0)) ==> line == lines[i])
  {
    var line := Replaced(lines[..i], lines[i], updates);
    forall k | 0 <= k < |updates| && SetsFirst(lines, i, updates[k].0)
      ensures line == updates[k].0 + "=" + updates[k].1
    {
      SetsMeans(lines[i], updates[k].0);
      CountMeans(lines[..i], updates[k].0);
      LookupFinds(updates, k);
    }
    if KeyOf(lines[i]).Some? {
      var key := KeyOf(lines[i]).value;
      SetsMeans(lines[i], key);
      CountMeans(lines[..i], key);
      if Lookup(updates, key).Some? {
        var k :| 0 <= k < |updates| && updates[k] == (key, Lookup(updates, key).value);
        assert updates[k].0 == key;
      }
    }
  }

  lemma RewrittenIsEdited(lines: seq<string>, updates: Updates)
    requires Distinct(updates)
    ensures LinesEdited(lines, updates, Rewritten(lines, updates))
  {
    var result := Rewritten(lines, updates);
    forall i, k | 0 <= i < |lines| && 0 <= k < |updates| && SetsFirst(lines, i, updates[k].0)
      ensures result[i] == updates[k].0 + "=" + updates[k].1
    {
      RewrittenAt(lines, updates, i);
      ReplacedMeans(lines, updates, i);
    }
    forall i | 0 <= i < |lines| && (forall k | 0 <= k < |updates| :: !SetsFirst(lines, i, updates[k].0))
      ensures result[i] == lines[i]
    {
      RewrittenAt(lines, updates, i);
      ReplacedMeans(lines, updates, i);
    }
  }

  /** The new text holds the edited lines and behind them the updates no line had. */
  lemma UpdateIsEdited(text: string, updates: Updates)
    requires Distinct(updates)
    ensures Edited(SplitLines(text), updates, Updated(text, updates))
  {
    hide SplitLines, Written, Content, Additions, Rewritten, Missing, LinesEdited, Assignments;
    var lines := SplitLines(text);
    var kept, left := Rewritten(lines, updates), Missing(lines, updates);
    RewrittenIsEdited(lines, updates);
    MissingAreAdded(lines, updates);
    ContentIsWritten(UpdatedLines(text, updates));
    var added := Additions(lines, updates);
    var gap := if added != [] && kept != [] && kept[|kept| - 1] != "" then [""] else [];
    assert UpdatedLines(text, updates) == kept + gap + added;
  }
}
