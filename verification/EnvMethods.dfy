/**
 The installer's two procedures on an env file as they run: _read_env and
 _update_env of deploy/truenas/installer.py.
 */
module EnvMethods {
  import opened Wrappers
  import opened PlainText
  import opened EnvFile
  import opened EnvContracts

  /** `_read_env`. */
  method ReadEnv(text: string) returns (lines: seq<string>, values: map<string, string>)
    ensures lines == SplitLines(text) && values == Values(lines)
    ensures ReadAs(lines, values)
  {
    ValuesAreRead(SplitLines(text));
    hide ReadAs;
    lines := SplitLines(text);
    values := map[];
    for k := 0 to |lines|
      invariant values == Values(lines[..k])
    {
      assert lines[..k + 1][..k] == lines[..k];
      var line := Strip(lines[k]);
      if line == "" || line[0] == '#' || '=' !in line {
        continue;
      }
      var key, value := Before(line), After(line);
      values := values[Strip(key) := StripChar(StripChar(Strip(value), '"'), '\'')];
    }
    assert lines[..|lines|] == lines;
  }

  lemma LinesAreEdited(lines: seq<string>, updates: Updates)
    ensures Distinct(updates) ==> LinesEdited(lines, updates, Rewritten(lines, updates))
    ensures Assignments(Missing(lines, updates)) == Additions(lines, updates)
  {
    if Distinct(updates) {
      RewrittenIsEdited(lines, updates);
    }
    MissingAreAdded(lines, updates);
  }

  /** The rewriting loop of `_update_env`. */
  method RewriteLines(lines: seq<string>, updates: Updates) returns (result: seq<string>, pending: Updates)
    ensures result == Rewritten(lines, updates) && pending == Missing(lines, updates)
    ensures Distinct(updates) ==> LinesEdited(lines, updates, result)
    ensures Assignments(pending) == Additions(lines, updates)
  {
    LinesAreEdited(lines, updates);
    hide LinesEdited, Additions;
    pending := updates;
    result := [];
    NothingIsMissingOfNothing(updates);
    for k := 0 to |lines|
      invariant result == Rewritten(lines[..k], updates)
      invariant pending == Missing(lines[..k], updates)
    {
      var raw := lines[k];
      assert lines[..k + 1] == lines[..k] + [raw];
      LineStep(lines[..k], raw, updates);
      if '=' !in raw || (LeftStrip(raw) != "" && LeftStrip(raw)[0] == '#') {
        result := result + [raw];
        continue;
      }
      var key := Strip(Before(raw));
      match Lookup(pending, key) {
        case Some(value) =>
          result := result + [key + "=" + value];
          pending := Without(pending, key);
        case None =>
          result := result + [raw];
      }
    }
    assert lines[..|lines|] == lines;
  }

  /** `_update_env`: the new text, and whether the file is written. */
  method UpdateEnv(text: string, updates: Updates) returns (content: string, written: bool)
    requires Distinct(updates)
    ensures content == Updated(text, updates)
    ensures Edited(SplitLines(text), updates, content)
    ensures written <==> content != text
  {
    UpdateIsEdited(text, updates);
    hide Edited;
    var lines, _ := ReadEnv(text);
    var result, pending := RewriteLines(lines, updates);
    if pending != [] {
      if result != [] && result[|result| - 1] != "" {
        result := result + [""];
      }
      result := result + Assignments(pending);
    }
    assert result == UpdatedLines(text, updates);
    content := Join(result) + "\n";
    written := text != content;
  }
}
