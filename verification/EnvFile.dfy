/**
 Reading and updating an env file (deploy/truenas/installer.py, _read_env and
 _update_env). A text is what the file reads as, with line ends already translated;
 updates are a dictionary in its insertion order.
 */
module EnvFile {
  import opened Wrappers
  import opened PlainText

  // ---- Lines ----------------------------------------------------------------

  const BREAKS: seq<char> :=
    ['\n', '\r', '\U{b}', '\U{c}', '\U{1c}', '\U{1d}', '\U{1e}', '\U{85}', '\U{2028}', '\U{2029}']

  predicate IsBreak(c: char) {
    c in BREAKS
  }

  predicate OneLine(s: string) {
    forall i :: 0 <= i < |s| ==> !IsBreak(s[i])
  }

  /** The text up to the first line break. */
  function FirstLine(text: string): (line: string)
    ensures |line| <= |text| && text[..|line|] == line && OneLine(line)
    ensures |line| < |text| ==> IsBreak(text[|line|])
  {
    if text == "" || IsBreak(text[0]) then "" else [text[0]] + FirstLine(text[1..])
  }

  /** `splitlines`: no line stands behind a final break. */
  function SplitLines(text: string): (lines: seq<string>)
    ensures forall i :: 0 <= i < |lines| ==> OneLine(lines[i])
    decreases |text|
  {
    if text == "" then []
    else
      var line := FirstLine(text);
      [line] + (if |line| == |text| then [] else SplitLines(text[|line| + 1..]))
  }

  function Join(lines: seq<string>): (text: string) {
    if lines == [] then ""
    else if |lines| == 1 then lines[0]
    else lines[0] + "\n" + Join(lines[1..])
  }

  function Content(lines: seq<string>): (text: string) {
    Join(lines) + "\n"
  }

  // ---- One line -------------------------------------------------------------

  function LeftStrip(s: string): (r: string) {
    if s != "" && IsSpace(s[0]) then LeftStrip(s[1..]) else s
  }

  /** `strip` of one character. */
  function StripChar(s: string, c: char): (r: string)
    decreases |s|
  {
    if s == "" then s
    else if s[0] == c then StripChar(s[1..], c)
    else if s[|s| - 1] == c then StripChar(s[..|s| - 1], c)
    else s
  }

  function Unquoted(value: string): (r: string) {
    StripChar(StripChar(value, '"'), '\'')
  }

  function Before(s: string): (front: string)
    requires '=' in s
    ensures |front| < |s| && s[..|front|] == front && s[|front|] == '=' && '=' !in front
  {
    if s[0] == '=' then "" else [s[0]] + Before(s[1..])
  }

  function After(s: string): (rest: string)
    requires '=' in s
  {
    s[|Before(s)| + 1..]
  }

  /** The key and value that `_read_env` finds on a line. */
  function Setting(raw: string): (r: Option<(string, string)>) {
    var line := Strip(raw);
    if line == "" || line[0] == '#' || '=' !in line then None
    else Some((Strip(Before(line)), Unquoted(Strip(After(line)))))
  }

  /** The key that `_update_env` finds on a line. */
  function KeyOf(raw: string): (key: Option<string>) {
    if '=' !in raw || (LeftStrip(raw) != "" && LeftStrip(raw)[0] == '#') then None
    else Some(Strip(Before(raw)))
  }

  // ---- Reading --------------------------------------------------------------

  /** The last line of a key holds its value. */
  function Values(lines: seq<string>): (values: map<string, string>) {
    if lines == [] then map[]
    else
      var values := Values(lines[..|lines| - 1]);
      match Setting(lines[|lines| - 1])
      case None => values
      case Some((key, value)) => values[key := value]
  }

  // ---- Updating -------------------------------------------------------------

  type Updates = seq<(string, string)>

  ghost predicate Distinct(updates: Updates) {
    forall i, j :: 0 <= i < j < |updates| ==> updates[i].0 != updates[j].0
  }

  function Lookup(updates: Updates, key: string): (value: Option<string>)
    ensures value.Some? ==> (key, value.value) in updates
    ensures value.None? ==> forall i :: 0 <= i < |updates| ==> updates[i].0 != key
  {
    if updates == [] then None
    else if updates[|updates| - 1].0 == key then Some(updates[|updates| - 1].1)
    else Lookup(updates[..|updates| - 1], key)
  }

  /** How many lines hold a key. */
  function Count(lines: seq<string>, key: string): (n: nat) {
    if lines == [] then 0
    else Count(lines[..|lines| - 1], key) + if KeyOf(lines[|lines| - 1]) == Some(key) then 1 else 0
  }

  function Assignment(update: (string, string)): (line: string) {
    update.0 + "=" + update.1
  }

  function Assignments(updates: Updates): (lines: seq<string>)
    ensures |lines| == |updates| && forall i :: 0 <= i < |lines| ==> lines[i] == Assignment(updates[i])
  {
    if updates == [] then []
    else Assignments(updates[..|updates| - 1]) + [Assignment(updates[|updates| - 1])]
  }

  /** A line behind `above`: the first line of an updated key is replaced. */
  function Replaced(above: seq<string>, raw: string, updates: Updates): (line: string) {
    match KeyOf(raw)
    case None => raw
    case Some(key) =>
      if Count(above, key) == 0 && Lookup(updates, key).Some?
      then Assignment((key, Lookup(updates, key).value)) else raw
  }

  function Rewritten(lines: seq<string>, updates: Updates): (result: seq<string>)
    ensures |result| == |lines|
  {
    if lines == [] then []
    else
      var above := lines[..|lines| - 1];
      Rewritten(above, updates) + [Replaced(above, lines[|lines| - 1], updates)]
  }

  /** The updates whose keys stand on no line. */
  function Missing(lines: seq<string>, updates: Updates): (left: Updates) {
    if updates == [] then []
    else
      var last := updates[|updates| - 1];
      Missing(lines, updates[..|updates| - 1]) + if Count(lines, last.0) == 0 then [last] else []
  }

  /** New keys stand at the end, set off by an empty line. */
  function Extended(result: seq<string>, left: Updates): (lines: seq<string>) {
    if left == [] then result
    else if result != [] && result[|result| - 1] != "" then result + [""] + Assignments(left)
    else result + Assignments(left)
  }

  function UpdatedLines(text: string, updates: Updates): (lines: seq<string>) {
    var lines := SplitLines(text);
    Extended(Rewritten(lines, updates), Missing(lines, updates))
  }

  function Updated(text: string, updates: Updates): (r: string) {
    Content(UpdatedLines(text, updates))
  }

  /** Dictionary `pop`. */
  function Without(updates: Updates, key: string): (r: Updates) {
    if updates == [] then []
    else
      var last := updates[|updates| - 1];
      Without(updates[..|updates| - 1], key) + if last.0 == key then [] else [last]
  }

  lemma {:induction false} AppendWithout(updates: Updates, update: (string, string), key: string)
    ensures Without(updates + [update], key) == Without(updates, key) + if update.0 == key then [] else [update]
  {
    assert (updates + [update])[..|updates|] == updates;
  }

  lemma {:induction false} MissingShrinks(lines: seq<string>, raw: string, updates: Updates)
    ensures Missing(lines + [raw], updates)
         == match KeyOf(raw)
            case Some(key) => Without(Missing(lines, updates), key)
            case None => Missing(lines, updates)
  {
    if updates != [] {
      var front, last := updates[..|updates| - 1], updates[|updates| - 1];
      MissingShrinks(lines, raw, front);
      assert (lines + [raw])[..|lines|] == lines;
      if KeyOf(raw).Some? {
        AppendWithout(Missing(lines, front), last, KeyOf(raw).value);
        assert Missing(lines, front) + [] == Missing(lines, front);
      }
    }
  }

  lemma {:induction false} MissingLookup(lines: seq<string>, updates: Updates, key: string)
    ensures Lookup(Missing(lines, updates), key) == if Count(lines, key) == 0 then Lookup(updates, key) else None
  {
    if updates != [] {
      var front, last := updates[..|updates| - 1], updates[|updates| - 1];
      MissingLookup(lines, front, key);
      assert (Missing(lines, front) + [last])[..|Missing(lines, front)|] == Missing(lines, front);
      assert Missing(lines, front) + [] == Missing(lines, front);
    }
  }

  lemma AbsentBelow(updates: Updates, key: string)
    requires updates != [] && Lookup(updates, key).None?
    ensures Lookup(updates[..|updates| - 1], key).None? && updates[|updates| - 1].0 != key
  {
  }

  lemma {:induction false} WithoutAbsent(updates: Updates, key: string)
    requires Lookup(updates, key).None?
    ensures Without(updates, key) == updates
  {
    if updates != [] {
      var front, last := updates[..|updates| - 1], updates[|updates| - 1];
      AbsentBelow(updates, key);
      WithoutAbsent(front, key);
      AppendWithout(front, last, key);
      hide Without, Lookup;
      assert front + [last] == updates;
    }
  }

  /** What one line does to the result and to the pending updates. */
  lemma LineStep(above: seq<string>, raw: string, updates: Updates)
    ensures Rewritten(above + [raw], updates) == Rewritten(above, updates) + [Replaced(above, raw, updates)]
    ensures var pending := Missing(above, updates);
      match KeyOf(raw)
      case None => Replaced(above, raw, updates) == raw && Missing(above + [raw], updates) == pending
      case Some(key) =>
        && Missing(above + [raw], updates) == Without(pending, key)
        && match Lookup(pending, key)
           case Some(value) => Replaced(above, raw, updates) == key + "=" + value
           case None => Replaced(above, raw, updates) == raw && Without(pending, key) == pending
  {
    assert (above + [raw])[..|above|] == above;
    MissingShrinks(above, raw, updates);
    if KeyOf(raw).Some? {
      MissingLookup(above, updates, KeyOf(raw).value);
      if Lookup(Missing(above, updates), KeyOf(raw).value).None? {
        WithoutAbsent(Missing(above, updates), KeyOf(raw).value);
      }
    }
  }

  lemma {:induction false} NothingIsMissingOfNothing(updates: Updates)
    ensures Missing([], updates) == updates
  {
    if updates != [] {
      NothingIsMissingOfNothing(updates[..|updates| - 1]);
    }
  }
}
