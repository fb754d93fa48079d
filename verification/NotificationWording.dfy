/**
 The sentences users read, written out in full, and what the classifier may make of
 a text: rendering speaks these sentences, and only they are recognised.
 */
module NotificationWording {
  import opened Wrappers
  import opened RequestStatus
  import opened PlainText
  import opened NotificationText
  import opened NotificationRoundTrip

  function PolishWording(event: Event, name: string, other: string): (text: (string, string)) {
    match event
    case AdminNew => ("Nowy request", "Użytkownik " + other + " dodał request „" + name + "”.")
    case OwnLiked => ("Nowe polubienie", "Ktoś polubił Twój request „" + name + "”.")
    case StatusChanged => ("Zmiana statusu", "Pozycja „" + name + "” ma teraz status: " + other + ".")
    case Done => ("Pozycja dostępna", "Pozycja „" + name + "” została zrealizowana i jest już dostępna.")
    case Restored => ("Pozycja przywrócona", "Pozycja „" + name + "” wróciła do aktywnych requestów.")
    case Deleted => ("Request usunięty", "Request „" + name + "” został usunięty. Powód: " + other)
    case Promoted =>
      ("Pozycja po premierze", "Pozycja „" + name + "” miała premierę i została przeniesiona do aktywnych requestów.")
    case Upcoming =>
      ("Request przed premierą",
       "Pozycja „" + name
       + "” została sklasyfikowana jako przed premierą i umieszczona w karcie „Przed premierą”.")
  }

  function EnglishWording(event: Event, name: string, other: string): (text: (string, string)) {
    match event
    case AdminNew => ("New request", "User " + other + " added the request “" + name + "”.")
    case OwnLiked => ("New like", "Someone liked your request “" + name + "”.")
    case StatusChanged => ("Status change", "The title “" + name + "” now has status: " + other + ".")
    case Done => ("Title available", "The title “" + name + "” was completed and is now available.")
    case Restored => ("Title restored", "The title “" + name + "” returned to active requests.")
    case Deleted => ("Request deleted", "The request “" + name + "” was deleted. Reason: " + other)
    case Promoted => ("Title released", "The title “" + name + "” was released and moved to active requests.")
    case Upcoming =>
      ("Upcoming request", "The title “" + name + "” was classified as upcoming and placed on the Upcoming tab.")
  }

  /** Title and body of an event; `other` is the user, the status or the reason. */
  function Wording(event: Event, language: Language, name: string, other: string): (text: (string, string)) {
    if language == Pl then PolishWording(event, name, other) else EnglishWording(event, name, other)
  }

  function StatusWords(status: Status, language: Language): (words: string) {
    match status
    case Waiting => if language == Pl then "Oczekujący" else "Pending"
    case Translation =>
      if language == Pl then "W oczekiwaniu na premierę Blu-ray/VOD" else "Waiting for Blu-ray/VOD release"
    case InProgress => if language == Pl then "W trakcie realizacji" else "In progress"
    case Missing => if language == Pl then "Aktualnie brak źródła" else "No source currently available"
  }

  /** A name that is not blank, without the space around it. */
  predicate IsNamed(name: string, title: string) {
    title != "" && title == Strip(name)
  }

  /** The label is the title in the language of the reader, else the original one, else
      a dash, with the season behind it. */
  lemma LabelSays(payload: Payload, language: Language) returns (title: string)
    ensures match payload.source
      case Literal(name) => IsNamed(name, title) || (Strip(name) == "" && title == "—")
      case Titles(pl, en, original) =>
        var own := if language == En then en else pl;
        || IsNamed(own, title)
        || (Strip(own) == "" && IsNamed(original, title))
        || (Strip(own) == "" && Strip(original) == "" && title == "—")
    ensures LocalizedLabel(payload, language) ==
      match payload.season
      case None => title
      case Some(season) => title + (if language == En then " — season " else " — sezon ") + Decimal(season)
  {
    title := match payload.source
      case Literal(name) => Or(Strip(name), "—")
      case Titles(pl, en, original) => Or(Or(Strip(if language.Pl? then pl else en), Strip(original)), "—");
  }

  // ---- Rendering speaks the sentences ---------------------------------------

  lemma Sandwich(prefix: string, value: string, suffix: string)
    ensures prefix + value + "" + "" + suffix == prefix + value + suffix
  {
    assert prefix + value + "" == prefix + value;
  }

  lemma OpenEnd(text: string)
    ensures text + "" == text
  {
  }

  /** A template filled in is the sentence. */
  lemma FilledIsWording(event: Event, language: Language, first: string, second: string)
    requires !HasTwoValues(event) ==> second == ""
    ensures var t, title := TemplateOf(event, language), TitleOf(event, language);
      (title, Fill(t, first, second))
        == if event.AdminNew? then Wording(event, language, second, first) else Wording(event, language, first, second)
  {
    var t := TemplateOf(event, language);
    if !HasTwoValues(event) {
      Sandwich(t.prefix, first, t.suffix);
    } else {
      OpenEnd(t.prefix + first + t.separator + second);
    }
  }

  /** What the template of the event needs besides the label. */
  function Other(event: Event, payload: Payload, language: Language): (other: Option<string>) {
    match event
    case AdminNew => payload.username
    case StatusChanged =>
      if payload.status == None then None else Some(StatusWords(payload.status.value, language))
    case Deleted => payload.reason
    case _ => Some("")
  }

  lemma StatusSays(status: Status, language: Language)
    ensures StatusText(status, language) == StatusWords(status, language)
  {
  }

  /** Every event is rendered in both languages as its sentence, unless a value of it
      is missing. */
  lemma RenderSays(event: Event, payload: Payload, language: Language)
    ensures Render(event, payload, language) ==
      match Other(event, payload, language)
      case None => None
      case Some(other) => Some(Wording(event, language, LocalizedLabel(payload, language), other))
  {
    hide Wording, TemplateOf, TitleOf, LocalizedLabel, StatusText, StatusWords;
    if payload.status.Some? {
      StatusSays(payload.status.value, language);
    }
    var values := ValuesOf(event, payload, language);
    if values.Some? {
      RenderedBody(event, payload, language);
      FilledIsWording(event, language, values.value.0, values.value.1);
    }
  }

  // ---- Only the sentences are recognised ------------------------------------

  lemma {:induction false} DefinitionIsListed(t: NoteType, title: string, events: seq<Event>)
    ensures var event := Definition(t, title, events);
      event.Some? ==>
        && t == TypeOf(event.value)
        && (title == TitleOf(event.value, Pl) || title == TitleOf(event.value, En))
  {
    if events != [] {
      DefinitionIsListed(t, title, events[1..]);
    }
  }

  lemma {:induction false} FirstSplitOccurs(s: string, separator: string, suffix: string, i: nat)
    ensures var at := FirstSplit(s, separator, suffix, i); at.Some? ==> OccursAt(s, separator, at.value)
    decreases |s| - i
  {
    if i + |separator| + |suffix| <= |s| && !OccursAt(s, separator, i) {
      FirstSplitOccurs(s, separator, suffix, i + 1);
    }
  }

  lemma {:induction false} LastSplitOccurs(s: string, separator: string, suffix: string, i: nat)
    ensures var at := LastSplit(s, separator, suffix, i); at.Some? ==> OccursAt(s, separator, at.value)
  {
    if i > 0 {
      LastSplitOccurs(s, separator, suffix, i - 1);
    }
  }

  lemma PartsMakeRest(rest: string, i: nat, separator: string, suffix: string)
    requires i + |separator| + |suffix| <= |rest| && OccursAt(rest, separator, i) && EndsWith(rest, suffix)
    ensures rest[..i] + separator + rest[i + |separator|..|rest| - |suffix|] + suffix == rest
  {
    assert rest == rest[..|rest| - |suffix|] + rest[|rest| - |suffix|..];
    var head := rest[..|rest| - |suffix|];
    assert head == head[..i] + head[i..i + |separator|] + head[i + |separator|..];
  }

  /** A matched body is the template filled with the matched values. */
  lemma MatchedIsFilled(event: Event, t: Template, body: string)
    requires MatchPattern(event, t, body).Some?
    requires !HasTwoValues(event) ==> t.separator == ""
    ensures var values := MatchPattern(event, t, body).value;
      body == Fill(t, values.0, values.1) && (!HasTwoValues(event) ==> values.1 == "")
  {
    var rest := body[|t.prefix|..];
    var values := MatchPattern(event, t, body).value;
    assert body == t.prefix + rest;
    if HasTwoValues(event) {
      FirstSplitOccurs(rest, t.separator, t.suffix, 1);
      LastSplitOccurs(rest, t.separator, t.suffix, |rest| + 1);
      PartsMakeRest(rest, |values.0|, t.separator, t.suffix);
    } else {
      assert rest == values.0 + t.suffix;
      assert values.0 + "" == values.0;
    }
    FilledIsPrefixed(t, values.0, values.1);
  }

  lemma LastPart(s: string, n: nat)
    requires n <= |s|
    ensures s == s[..|s| - n] + s[|s| - n..]
  {
  }

  lemma SuffixIsLast(s: string, suffix: string)
    requires EndsWith(s, suffix)
    ensures s == s[..|s| - |suffix|] + suffix
  {
    LastPart(s, |suffix|);
  }

  /** A text and the line end it may have. */
  lemma LineAndEnd(value: string) returns (line: string, end: string)
    ensures line == if EndsWith(value, "\n") then value[..|value| - 1] else value
    ensures value == line + end && (end == "" || end == "\n")
  {
    if EndsWith(value, "\n") {
      SuffixIsLast(value, "\n");
      return value[..|value| - 1], "\n";
    }
    return value, "";
  }

  /** A label is split only into one line, a season word of either language, digits and
      perhaps a line end. */
  lemma SplitSays(value: string) returns (language: Language, digits: string, end: string)
    requires SplitSeason(value).Some?
    ensures var (front, season) := SplitSeason(value).value;
      && value == front + SeasonWord(language) + digits + end
      && '\n' !in front
      && digits != ""
      && (forall i | 0 <= i < |digits| :: IsDigit(digits[i]))
      && (end == "" || end == "\n")
      && season == ParseDecimal(digits)
  {
    hide SeasonWord, ParseDecimal, EndsWith, TrailingDigits;
    var line: string;
    line, end := LineAndEnd(value);
    var n := TrailingDigits(line);
    LastPart(line, n);
    var head := line[..|line| - n];
    digits := line[|line| - n..];
    language := if EndsWith(head, SeasonWord(Pl)) then Pl else En;
    assert EndsWith(head, SeasonWord(language));
    SuffixIsLast(head, SeasonWord(language));
  }

  /** What is recognised is one of the sentences under a title of the event, and the
      payload holds its values: the classifier invents nothing. */
  lemma RecognisedIsWording(t: NoteType, title: string, body: string, linked: Option<Linked>)
    returns (language: Language, name: string, other: string)
    requires Classify(t, title, body, linked).Some?
    ensures var (event, payload) := Classify(t, title, body, linked).value;
      && t == TypeOf(event)
      && (title == Wording(event, En, name, other).0 || title == Wording(event, Pl, name, other).0)
      && body == Wording(event, language, name, other).1
      && payload == PayloadOf(name, linked).(
           username := if event.AdminNew? then Some(other) else None,
           status := payload.status,
           reason := if event.Deleted? then Some(other) else None)
      && (event.StatusChanged? <==> payload.status.Some?)
      && (event.StatusChanged? ==>
            other == StatusWords(payload.status.value, Pl) || other == StatusWords(payload.status.value, En))
  {
    hide Wording, TemplateOf, TitleOf, MatchPattern, SplitSeason, StatusText, StatusOf, StatusWords;
    var (event, payload) := Classify(t, title, body, linked).value;
    DefinitionIsListed(t, title, EVENTS);
    language := if MatchPattern(event, TemplateOf(event, Pl), body).Some? then Pl else En;
    var values := MatchBody(event, body).value;
    Separators(event, language);
    MatchedIsFilled(event, TemplateOf(event, language), body);
    FilledIsWording(event, Pl, values.0, values.1);
    FilledIsWording(event, En, values.0, values.1);
    name, other := values.0, values.1;
    if event.AdminNew? {
      name, other := values.1, values.0;
    }
    if event.StatusChanged? {
      StatusIsOneOf(values.1);
    }
  }

  lemma StatusIsOneOf(text: string)
    ensures StatusOf(text).Some? ==>
      text == StatusWords(StatusOf(text).value, Pl) || text == StatusWords(StatusOf(text).value, En)
  {
  }
}
