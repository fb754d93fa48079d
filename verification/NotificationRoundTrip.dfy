/**
 Recognising a rendered notification: the classifier gives back the event and the
 payload exactly when the values cannot be mistaken for the text around them.
 */
module NotificationRoundTrip {
  import opened Wrappers
  import opened RequestStatus
  import opened PlainText
  import opened NotificationText

  // ---- Decimal numbers and season suffixes ----------------------------------

  lemma {:induction false} DecimalParses(n: nat)
    ensures Decimal(n) != "" && (forall i :: 0 <= i < |Decimal(n)| ==> IsDigit(Decimal(n)[i]))
    ensures ParseDecimal(Decimal(n)) == n
  {
    var last := ['0' + (n % 10) as char];
    assert IsDigit(last[0]) && last[0] as int - '0' as int == n % 10;
    if n < 10 {
      assert Decimal(n) == last && Decimal(n)[..0] == "";
    } else {
      DecimalParses(n / 10);
      assert Decimal(n)[..|Decimal(n)| - 1] == Decimal(n / 10);
    }
  }

  lemma {:induction false} TrailingRun(head: string, digits: string)
    requires head != "" && !IsDigit(head[|head| - 1])
    requires forall i :: 0 <= i < |digits| ==> IsDigit(digits[i])
    ensures TrailingDigits(head + digits) == |digits|
  {
    if digits == "" {
      assert head + digits == head;
    } else {
      TrailingRun(head, digits[..|digits| - 1]);
      assert (head + digits)[..|head + digits| - 1] == head + digits[..|digits| - 1];
    }
  }

  lemma SuffixIsFound(text: string, suffix: string)
    ensures EndsWith(text + suffix, suffix)
    ensures var k := |text + suffix| - |suffix|;
      (text + suffix)[..k] == text && (text + suffix)[k..] == suffix
  {
  }

  lemma NotASuffix(s: string, suffix: string, k: nat)
    requires 1 <= k <= |s| && k <= |suffix| && s[|s| - k] != suffix[|suffix| - k]
    ensures !EndsWith(s, suffix)
  {
    assert |suffix| <= |s| ==> s[|s| - |suffix|..][|suffix| - k] == s[|s| - k];
  }

  lemma OnlyOneSeasonWord(text: string)
    ensures !EndsWith(text + SeasonWord(En), SeasonWord(Pl))
  {
    assert SeasonWord(En)[6] == 's' && SeasonWord(Pl)[5] == 'z';
    NotASuffix(text + SeasonWord(En), SeasonWord(Pl), 4);
  }

  lemma DigitsAreNoLineEnd(head: string, digits: string)
    requires digits != "" && IsDigit(digits[|digits| - 1])
    ensures !EndsWith(head + digits, "\n")
  {
    NotASuffix(head + digits, "\n", 1);
  }

  lemma SeasonWordEnds(text: string, language: Language)
    ensures var head := text + SeasonWord(language); head != "" && !IsDigit(head[|head| - 1])
  {
    assert SeasonWord(language)[|SeasonWord(language)| - 1] == ' ';
  }

  /** A rendered season is found again behind any label of one line, and behind no other. */
  lemma SeasonIsSplit(text: string, language: Language, season: nat)
    ensures SplitSeason(text + SeasonWord(language) + Decimal(season))
         == if '\n' in text then None else Some((text, season))
  {
    var word, digits := SeasonWord(language), Decimal(season);
    DecimalParses(season);
    DigitsAreNoLineEnd(text + word, digits);
    SeasonWordEnds(text, language);
    TrailingRun(text + word, digits);
    SuffixIsFound(text + word, digits);
    SuffixIsFound(text, word);
    OnlyOneSeasonWord(text);
  }

  // ---- Patterns -------------------------------------------------------------

  lemma PrefixIsFound(prefix: string, rest: string)
    ensures StartsWith(prefix + rest, prefix) && (prefix + rest)[|prefix|..] == rest
  {
  }

  lemma NotAPrefix(s: string, prefix: string, k: nat)
    requires k < |s| && k < |prefix| && s[k] != prefix[k]
    ensures !StartsWith(s, prefix)
  {
    assert |prefix| <= |s| ==> s[..|prefix|][k] == s[k];
  }

  lemma NotAt(s: string, separator: string, i: nat)
    requires separator != "" && i < |s| && s[i] != separator[0]
    ensures !OccursAt(s, separator, i)
  {
    assert i + |separator| <= |s| ==> s[i..i + |separator|][0] == s[i];
  }

  /** The separator stands behind a text without its first character. */
  lemma {:induction false} FirstSplitIsFound(text: string, separator: string, rest: string, suffix: string, i: nat)
    requires separator != "" && |suffix| <= |rest| && i <= |text|
    requires separator[0] !in text
    ensures FirstSplit(text + separator + rest, separator, suffix, i) == Some(|text|)
    decreases |text| - i
  {
    var s := text + separator + rest;
    if i == |text| {
      assert s[i..i + |separator|] == separator;
    } else {
      NotAt(s, separator, i);
      FirstSplitIsFound(text, separator, rest, suffix, i + 1);
    }
  }

  lemma {:induction false} LastSplitBelow(s: string, separator: string, suffix: string, low: nat, i: nat)
    requires low < i && low + |separator| + |suffix| <= |s| && OccursAt(s, separator, low)
    ensures LastSplit(s, separator, suffix, i) == Some(low) <==>
      forall k :: low < k < i && k + |separator| + |suffix| <= |s| ==> !OccursAt(s, separator, k)
    ensures LastSplit(s, separator, suffix, i).Some? && LastSplit(s, separator, suffix, i).value >= low
    decreases i
  {
    if i - 1 > low && !(i - 1 + |separator| + |suffix| <= |s| && OccursAt(s, separator, i - 1)) {
      LastSplitBelow(s, separator, suffix, low, i - 1);
    }
  }

  /** A separator whose first character does not come again cannot overlap its copy. */
  lemma NoOverlap(text: string, separator: string, value: string, suffix: string, k: nat)
    requires separator != "" && (forall j :: 0 < j < |separator| ==> separator[j] != separator[0])
    requires |text| < k && k + |separator| + |suffix| <= |text + separator + value + suffix|
    ensures OccursAt(text + separator + value + suffix, separator, k) <==>
      k >= |text| + |separator| && OccursAt(value, separator, k - |text| - |separator|)
  {
    var s := text + separator + value + suffix;
    if k < |text| + |separator| {
      assert s[k] == separator[k - |text|];
      assert s[k..k + |separator|][0] == s[k];
    } else {
      var d := k - |text| - |separator|;
      assert s[k..k + |separator|] == value[d..d + |separator|];
    }
  }

  /** A greedy group ends at its separator exactly when the value behind does not hold
      the separator again. */
  lemma LastSplitIsFound(text: string, separator: string, value: string, suffix: string)
    requires separator != "" && forall j :: 0 < j < |separator| ==> separator[j] != separator[0]
    ensures var s := text + separator + value + suffix;
      var at := LastSplit(s, separator, suffix, |s| + 1);
      && at.Some?
      && at.value >= |text|
      && (at.value == |text| <==> !Occurs(value, separator))
  {
    var s := text + separator + value + suffix;
    assert s[|text|..|text| + |separator|] == separator;
    LastSplitBelow(s, separator, suffix, |text|, |s| + 1);
    forall k | |text| < k < |s| + 1 && k + |separator| + |suffix| <= |s|
      ensures OccursAt(s, separator, k) <==>
        k >= |text| + |separator| && OccursAt(value, separator, k - |text| - |separator|)
    {
      NoOverlap(text, separator, value, suffix, k);
    }
    if Occurs(value, separator) {
      var d :| 0 <= d <= |value| && OccursAt(value, separator, d);
      assert OccursAt(s, separator, |text| + |separator| + d);
    }
  }

  // ---- Templates ------------------------------------------------------------

  function Fill(t: Template, first: string, second: string): (body: string) {
    t.prefix + first + t.separator + second + t.suffix
  }

  /** The first character of `s` does not come again. */
  ghost predicate StartsUniquely(s: string) {
    s != "" && forall j :: 0 < j < |s| ==> s[j] != s[0]
  }

  lemma StatusSeparators()
    ensures StartsUniquely("” ma teraz status: ") && StartsUniquely("” now has status: ")
  {
  }

  lemma DeletionSeparators()
    ensures StartsUniquely("” został usunięty. Powód: ") && StartsUniquely("” was deleted. Reason: ")
  {
  }

  lemma AdminSeparators(language: Language)
    ensures var separator := TemplateOf(AdminNew, language).separator; separator != "" && separator[0] == ' '
  {
  }

  lemma PolishSingleSeparators(event: Event)
    requires event.OwnLiked? || event.Done? || event.Restored?
    ensures PolishTemplate(event).separator == ""
  {
  }

  lemma PolishReleaseSeparators(event: Event)
    requires event.Promoted? || event.Upcoming?
    ensures PolishTemplate(event).separator == ""
  {
  }

  lemma EnglishSingleSeparators(event: Event)
    requires !HasTwoValues(event)
    ensures EnglishTemplate(event).separator == ""
  {
  }

  lemma GreedySeparators(event: Event, language: Language)
    requires event.StatusChanged? || event.Deleted?
    ensures StartsUniquely(TemplateOf(event, language).separator)
  {
    if event.StatusChanged? {
      StatusSeparators();
    } else {
      DeletionSeparators();
    }
  }

  lemma Separators(event: Event, language: Language)
    ensures !HasTwoValues(event) ==> TemplateOf(event, language).separator == ""
    ensures event.StatusChanged? || event.Deleted? ==> StartsUniquely(TemplateOf(event, language).separator)
  {
    hide PolishTemplate, EnglishTemplate;
    if !HasTwoValues(event) {
      if event.Promoted? || event.Upcoming? {
        PolishReleaseSeparators(event);
      } else {
        PolishSingleSeparators(event);
      }
      EnglishSingleSeparators(event);
    } else if !event.AdminNew? {
      GreedySeparators(event, language);
    }
  }

  /** The two languages differ within their prefixes. */
  lemma FirstCharactersDiffer(event: Event)
    requires event.OwnLiked? || event.StatusChanged? || event.Done?
    ensures var en, pl := TemplateOf(event, En).prefix, TemplateOf(event, Pl).prefix;
      en != "" && pl != "" && en[0] != pl[0]
  {
  }

  lemma LaterFirstCharactersDiffer(event: Event)
    requires event.Restored? || event.Deleted?
    ensures var en, pl := TemplateOf(event, En).prefix, TemplateOf(event, Pl).prefix;
      en != "" && pl != "" && en[0] != pl[0]
  {
  }

  lemma LastFirstCharactersDiffer(event: Event)
    requires event.Promoted? || event.Upcoming?
    ensures var en, pl := TemplateOf(event, En).prefix, TemplateOf(event, Pl).prefix;
      en != "" && pl != "" && en[0] != pl[0]
  {
  }

  lemma SecondCharactersDiffer()
    ensures var en, pl := TemplateOf(AdminNew, En).prefix, TemplateOf(AdminNew, Pl).prefix;
      |en| > 1 && |pl| > 1 && en[1] != pl[1]
  {
    assert "User "[1] == 's' && "Użytkownik "[1] == 'ż';
  }

  lemma PrefixesDiffer(event: Event) returns (k: nat)
    ensures k < |TemplateOf(event, En).prefix| && k < |TemplateOf(event, Pl).prefix|
    ensures TemplateOf(event, En).prefix[k] != TemplateOf(event, Pl).prefix[k]
  {
    hide TemplateOf;
    if event.AdminNew? {
      SecondCharactersDiffer();
      k := 1;
    } else {
      if event.OwnLiked? || event.StatusChanged? || event.Done? {
        FirstCharactersDiffer(event);
      } else if event.Restored? || event.Deleted? {
        LaterFirstCharactersDiffer(event);
      } else {
        LastFirstCharactersDiffer(event);
      }
      k := 0;
    }
  }

  lemma PolishDoesNotMatchEnglish(event: Event, first: string, second: string)
    ensures MatchPattern(event, TemplateOf(event, Pl), Fill(TemplateOf(event, En), first, second)) == None
  {
    hide TemplateOf;
    var k := PrefixesDiffer(event);
    var body := Fill(TemplateOf(event, En), first, second);
    assert body[k] == TemplateOf(event, En).prefix[k];
    NotAPrefix(body, TemplateOf(event, Pl).prefix, k);
  }

  lemma FilledRest(t: Template, first: string, second: string)
    ensures StartsWith(Fill(t, first, second), t.prefix)
    ensures var rest := Fill(t, first, second)[|t.prefix|..];
      && rest == first + t.separator + second + t.suffix
      && EndsWith(rest, t.suffix)
      && rest[..|rest| - |t.suffix|] == first + t.separator + second
      && rest[..|first|] == first
      && rest[|first| + |t.separator|..|rest| - |t.suffix|] == second
  {
    var rest := first + t.separator + second + t.suffix;
    FilledIsPrefixed(t, first, second);
    PrefixIsFound(t.prefix, rest);
    SuffixIsFound(first + t.separator + second, t.suffix);
    PartsAreFound(first, t.separator, second, t.suffix);
  }

  lemma FilledIsPrefixed(t: Template, first: string, second: string)
    ensures Fill(t, first, second) == t.prefix + (first + t.separator + second + t.suffix)
  {
  }

  lemma PartsAreFound(first: string, separator: string, second: string, suffix: string)
    ensures var rest := first + separator + second + suffix;
      rest[..|first|] == first && rest[|first| + |separator|..|first + separator + second|] == second
  {
  }

  lemma Regrouped(a: string, b: string, c: string)
    ensures a + b + c == a + (b + c)
  {
  }

  lemma LazyPatternMatches(language: Language, first: string, second: string)
    requires first != "" && ' ' !in first
    ensures var t := TemplateOf(AdminNew, language);
      MatchPattern(AdminNew, t, Fill(t, first, second)) == Some((first, second))
  {
    var t := TemplateOf(AdminNew, language);
    AdminSeparators(language);
    hide TemplateOf;
    FilledRest(t, first, second);
    Regrouped(first + t.separator, second, t.suffix);
    FirstSplitIsFound(first, t.separator, second + t.suffix, t.suffix, 1);
  }

  /** A greedy pattern gives back the values, or a shorter second one, exactly as the
      second value is free of the separator or not. */
  lemma GreedyPatternMatches(event: Event, t: Template, first: string, second: string)
    requires (event.StatusChanged? || event.Deleted?) && StartsUniquely(t.separator)
    ensures var values := MatchPattern(event, t, Fill(t, first, second));
      && values.Some?
      && (!Occurs(second, t.separator) ==> values == Some((first, second)))
      && (Occurs(second, t.separator) ==> |values.value.1| < |second|)
  {
    FilledRest(t, first, second);
    LastSplitIsFound(first, t.separator, second, t.suffix);
  }

  lemma SinglePatternMatches(event: Event, t: Template, first: string)
    requires !HasTwoValues(event) && t.separator == ""
    ensures MatchPattern(event, t, Fill(t, first, "")) == Some((first, ""))
  {
    FilledRest(t, first, "");
    assert first + t.separator + "" == first;
  }

  /** What tells two titles apart: their length and two of their characters. */
  function Mark(title: string): (mark: (nat, char, char)) {
    if |title| < 9 then (|title|, ' ', ' ') else (|title|, title[0], title[8])
  }

  lemma Marks(event: Event, language: Language)
    requires TypeOf(event) == RequestChanges
    ensures Mark(TitleOf(event, language)) ==
      match (event, language)
      case (StatusChanged, Pl) => (14, 'Z', 't')
      case (StatusChanged, En) => (13, 'S', 'h')
      case (Done, Pl) => (16, 'P', 'd')
      case (Done, En) => (15, 'T', 'a')
      case (Restored, Pl) => (19, 'P', 'p')
      case (Restored, En) => (14, 'T', 's')
      case (Deleted, Pl) => (16, 'R', 'u')
      case (Deleted, En) => (15, 'R', 'd')
      case (Promoted, Pl) => (20, 'P', 'p')
      case (Promoted, En) => (14, 'T', 'l')
      case (Upcoming, Pl) => (22, 'R', 'p')
      case (Upcoming, En) => (16, 'U', ' ')
  {
  }

  lemma TitlesDiffer(event: Event, other: Event, language: Language, spoken: Language)
    requires TypeOf(event) == TypeOf(other) && event != other
    ensures TitleOf(event, language) != TitleOf(other, spoken)
  {
    Marks(event, language);
    Marks(other, spoken);
  }

  lemma {:induction false} DefinitionFrom(event: Event, language: Language, events: seq<Event>)
    requires event in events
    ensures Definition(TypeOf(event), TitleOf(event, language), events) == Some(event)
  {
    if events[0] != event {
      if TypeOf(events[0]) == TypeOf(event) {
        TitlesDiffer(event, events[0], language, Pl);
        TitlesDiffer(event, events[0], language, En);
      }
      DefinitionFrom(event, language, events[1..]);
    }
  }

  // ---- Values ---------------------------------------------------------------

  predicate Lacks(s: string, c: char) {
    forall i :: 0 <= i < |s| ==> s[i] != c
  }

  lemma PolishStatuses()
    ensures Lacks("Oczekujący", '”') && Lacks("W oczekiwaniu na premierę Blu-ray/VOD", '”')
    ensures Lacks("W trakcie realizacji", '”') && Lacks("Aktualnie brak źródła", '”')
  {
  }

  lemma EnglishStatuses()
    ensures Lacks("Pending", '”') && Lacks("Waiting for Blu-ray/VOD release", '”')
    ensures Lacks("In progress", '”') && Lacks("No source currently available", '”')
  {
  }

  lemma StatusHasNoQuote(status: Status, language: Language)
    ensures Lacks(StatusText(status, language), '”')
  {
    match language
    case Pl => PolishStatuses();
    case En => EnglishStatuses();
  }

  lemma StatusIsFound(status: Status, language: Language)
    ensures StatusOf(StatusText(status, language)) == Some(status)
  {
  }

  lemma LackingIsSeparable(value: string, separator: string)
    requires separator != "" && Lacks(value, separator[0])
    ensures !Occurs(value, separator)
  {
    forall i | 0 <= i <= |value| ensures !OccursAt(value, separator, i) {
      if i < |value| {
        NotAt(value, separator, i);
      }
    }
  }

  /** The body of one language is matched by the pattern of that language only. */
  lemma BodyIsMatched(event: Event, language: Language, first: string, second: string)
    requires MatchPattern(event, TemplateOf(event, language), Fill(TemplateOf(event, language), first, second)).Some?
    ensures MatchBody(event, Fill(TemplateOf(event, language), first, second))
         == MatchPattern(event, TemplateOf(event, language), Fill(TemplateOf(event, language), first, second))
  {
    if language.En? {
      PolishDoesNotMatchEnglish(event, first, second);
    }
  }

  // ---- The round trip -------------------------------------------------------

  /** A payload of a legacy label with the values its event needs and no others. */
  predicate Legacy(event: Event, payload: Payload) {
    && payload.source.Literal?
    && payload.source.name != ""
    && Strip(payload.source.name) == payload.source.name
    && (payload.username.Some? <==> event.AdminNew?)
    && (payload.username.Some? ==> payload.username.value != "" && ' ' !in payload.username.value)
    && (payload.status.Some? <==> event.StatusChanged?)
    && (payload.reason.Some? <==> event.Deleted?)
  }

  /** The label does not end like a season, stays on one line before a real season,
      and the reason does not hold the text that precedes it. */
  predicate Recoverable(event: Event, payload: Payload, language: Language)
    requires payload.source.Literal?
  {
    && (payload.season.None? ==> SplitSeason(payload.source.name).None?)
    && (payload.season.Some? ==> '\n' !in payload.source.name)
    && (payload.reason.Some? ==> !Occurs(payload.reason.value, TemplateOf(event, language).separator))
  }

  /** The label comes back exactly when it is recoverable. */
  lemma LabelComesBack(payload: Payload, language: Language)
    requires payload.source.Literal? && payload.source.name != "" && Strip(payload.source.name) == payload.source.name
    ensures var back := PayloadOf(LocalizedLabel(payload, language), None);
      && (back.source == payload.source && back.season == payload.season <==>
            (payload.season.None? ==> SplitSeason(payload.source.name).None?)
            && (payload.season.Some? ==> '\n' !in payload.source.name))
      && back == Payload(back.source, back.season, None, None, None)
  {
    if payload.season.Some? {
      SeasonIsSplit(payload.source.name, language, payload.season.value);
    }
  }

  /** The values the patterns give back for a rendered body. */
  lemma ValuesComeBack(event: Event, payload: Payload, language: Language)
    requires Legacy(event, payload)
    ensures var t := TemplateOf(event, language);
      var values := ValuesOf(event, payload, language);
      && values.Some?
      && MatchBody(event, Fill(t, values.value.0, values.value.1)).Some?
      && (event.Deleted? && Occurs(payload.reason.value, t.separator) ==>
            |MatchBody(event, Fill(t, values.value.0, values.value.1)).value.1| < |payload.reason.value|)
      && (!(event.Deleted? && Occurs(payload.reason.value, t.separator)) ==>
            MatchBody(event, Fill(t, values.value.0, values.value.1)) == values)
  {
    var t := TemplateOf(event, language);
    var values := ValuesOf(event, payload, language).value;
    Separators(event, language);
    match event {
      case AdminNew => LazyPatternMatches(language, values.0, values.1);
      case StatusChanged =>
        StatusHasNoQuote(payload.status.value, language);
        assert t.separator[0] == '”';
        LackingIsSeparable(values.1, t.separator);
        GreedyPatternMatches(event, t, values.0, values.1);
      case Deleted => GreedyPatternMatches(event, t, values.0, values.1);
      case _ => SinglePatternMatches(event, t, values.0);
    }
    BodyIsMatched(event, language, values.0, values.1);
  }

  lemma RenderedBody(event: Event, payload: Payload, language: Language)
    requires ValuesOf(event, payload, language).Some?
    ensures var values := ValuesOf(event, payload, language).value;
      Render(event, payload, language)
        == Some((TitleOf(event, language), Fill(TemplateOf(event, language), values.0, values.1)))
  {
  }

  /** A rendered title names its event, whatever the row links to. */
  lemma TitleNamesEvent(event: Event, language: Language)
    ensures Definition(TypeOf(event), TitleOf(event, language), EVENTS) == Some(event)
  {
    assert event == EVENTS[0] || event == EVENTS[1] || event == EVENTS[2] || event == EVENTS[3]
      || event == EVENTS[4] || event == EVENTS[5] || event == EVENTS[6] || event == EVENTS[7];
    DefinitionFrom(event, language, EVENTS);
  }

  /** The matched values assemble to the payload exactly when it is recoverable. */
  lemma PayloadComesBack(event: Event, payload: Payload, language: Language)
    requires Legacy(event, payload)
    ensures var t := TemplateOf(event, language);
      var values := ValuesOf(event, payload, language);
      && values.Some?
      && MatchBody(event, Fill(t, values.value.0, values.value.1)).Some?
      && (Assemble(event, MatchBody(event, Fill(t, values.value.0, values.value.1)).value, None) == Some(payload)
          <==> Recoverable(event, payload, language))
  {
    ValuesComeBack(event, payload, language);
    LabelComesBack(payload, language);
    if event.StatusChanged? {
      StatusIsFound(payload.status.value, language);
    }
    hide TemplateOf, MatchBody, Fill, SplitSeason, Strip, StatusText, StatusOf, LocalizedLabel, Occurs;
  }

  /** Classifying what was rendered from a legacy payload, in either language and for
      every request event, gives back the event and the payload exactly when the
      payload is recoverable. */
  lemma ClassifyUndoesRender(event: Event, payload: Payload, language: Language)
    requires Legacy(event, payload)
    ensures Render(event, payload, language).Some?
    ensures var (title, body) := Render(event, payload, language).value;
      Classify(TypeOf(event), title, body, None) == Some((event, payload)) <==> Recoverable(event, payload, language)
  {
    TitleNamesEvent(event, language);
    PayloadComesBack(event, payload, language);
    RenderedBody(event, payload, language);
  }

  /** "X — season 1" is a label, and it ends like a season. */
  lemma EndsLikeASeason(language: Language)
    ensures var text := ['X'] + SeasonWord(language) + ['1'];
      text != "" && Strip(text) == text && SplitSeason(text).Some?
  {
    var text := ['X'] + SeasonWord(language) + ['1'];
    assert Decimal(1) == ['1'] by {
      assert '0' + 1 as char == '1';
    }
    SeasonIsSplit(['X'], language, 1);
    assert text[0] == 'X' && text[|text| - 1] == '1';
    hide SeasonWord, SplitSeason, Decimal;
    PlainEndsStay(text);
  }

  /** A film called "X — season 1" is taken for the first season of "X", although no
      season was rendered. */
  lemma TitleLikeASeasonIsLost(language: Language) returns (payload: Payload)
    ensures payload == Payload(Literal(['X'] + SeasonWord(language) + ['1']), None, None, None, None)
    ensures Legacy(Done, payload) && Render(Done, payload, language).Some?
    ensures var (title, body) := Render(Done, payload, language).value;
      Classify(TypeOf(Done), title, body, None) != Some((Done, payload))
  {
    EndsLikeASeason(language);
    hide SeasonWord, SplitSeason, Strip, Render, Classify;
    payload := Payload(Literal(['X'] + SeasonWord(language) + ['1']), None, None, None, None);
    ClassifyUndoesRender(Done, payload, language);
  }

  lemma PlainEndsStay(text: string)
    requires text != "" && '0' <= text[0] <= 'z' && '0' <= text[|text| - 1] <= 'z'
    ensures Strip(text) == text
  {
    NoSpace(text[0]);
    NoSpace(text[|text| - 1]);
  }

  lemma NoSpace(c: char)
    requires '0' <= c <= 'z'
    ensures !IsSpace(c)
  {
  }

  /** A reason that quotes the words in front of it is cut short. */
  lemma ReasonLikeADeletionIsLost(language: Language) returns (payload: Payload)
    ensures payload == Payload(Literal(['X']), None, None, None, Some(TemplateOf(Deleted, language).separator))
    ensures Legacy(Deleted, payload) && Render(Deleted, payload, language).Some?
    ensures var (title, body) := Render(Deleted, payload, language).value;
      Classify(TypeOf(Deleted), title, body, None) != Some((Deleted, payload))
  {
    var separator := TemplateOf(Deleted, language).separator;
    payload := Payload(Literal(['X']), None, None, None, Some(separator));
    PlainEndsStay(['X']);
    assert OccursAt(separator, separator, 0) by {
      assert separator[0..|separator|] == separator;
    }
    ClassifyUndoesRender(Deleted, payload, language);
  }

  // ---- Linked rows ----------------------------------------------------------

  /** A row that still links to a request is recognised whatever its label: the
      titles come from the request. */
  lemma LinkedRowIsRecognised(event: Event, payload: Payload, language: Language, linked: Linked)
    requires Legacy(event, payload)
    requires payload.reason.Some? ==> !Occurs(payload.reason.value, TemplateOf(event, language).separator)
    ensures Render(event, payload, language).Some?
    ensures var (title, body) := Render(event, payload, language).value;
      Classify(TypeOf(event), title, body, Some(linked))
        == Some((event, payload.(source := linked.titles, season := linked.season)))
  {
    hide TemplateOf, TitleOf, StatusText;
    TitleNamesEvent(event, language);
    ValuesComeBack(event, payload, language);
    RenderedBody(event, payload, language);
    if event.StatusChanged? {
      StatusIsFound(payload.status.value, language);
    }
  }
}
