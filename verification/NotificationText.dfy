/**
 Rendering of request notifications and recognition of legacy ones
 (request_app/notification_i18n.py). A pattern is a prefix, a separator and a
 suffix; a lazy group ends at the first separator, a greedy one at the last.
 */
module NotificationText {
  import opened Wrappers
  import opened RequestStatus
  import opened PlainText

  datatype Language = En | Pl

  datatype Event = AdminNew | OwnLiked | StatusChanged | Done | Restored | Deleted | Promoted | Upcoming

  datatype NoteType = AdminNewRequest | OwnRequestLiked | RequestChanges | OtherType

  /** What a payload names the title by: a literal label, or the titles of a request. */
  datatype Source = Literal(name: string) | Titles(pl: string, en: string, original: string)

  datatype Payload = Payload(
    source: Source,
    season: Option<nat>,
    username: Option<string>,
    status: Option<Status>,
    reason: Option<string>)

  // ---- Text -----------------------------------------------------------------

  predicate IsDigit(c: char) {
    '0' <= c <= '9'
  }

  function Decimal(n: nat): (s: string) {
    if n < 10 then ['0' + n as char] else Decimal(n / 10) + ['0' + (n % 10) as char]
  }

  function ParseDecimal(s: string): (n: nat)
    requires forall i :: 0 <= i < |s| ==> IsDigit(s[i])
  {
    if s == "" then 0
    else
      assert IsDigit(s[|s| - 1]);
      10 * ParseDecimal(s[..|s| - 1]) + (s[|s| - 1] as int - '0' as int)
  }

  predicate StartsWith(s: string, prefix: string) {
    |prefix| <= |s| && s[..|prefix|] == prefix
  }

  predicate EndsWith(s: string, suffix: string) {
    |suffix| <= |s| && s[|s| - |suffix|..] == suffix
  }

  /** `separator` stands at position `i` of `s`. */
  predicate OccursAt(s: string, separator: string, i: nat) {
    i + |separator| <= |s| && s[i..i + |separator|] == separator
  }

  predicate Occurs(s: string, separator: string) {
    exists i :: 0 <= i <= |s| && OccursAt(s, separator, i)
  }

  // ---- Templates ------------------------------------------------------------

  function TitleOf(event: Event, language: Language): (title: string) {
    match (event, language)
    case (AdminNew, Pl) => "Nowy request"
    case (AdminNew, En) => "New request"
    case (OwnLiked, Pl) => "Nowe polubienie"
    case (OwnLiked, En) => "New like"
    case (StatusChanged, Pl) => "Zmiana statusu"
    case (StatusChanged, En) => "Status change"
    case (Done, Pl) => "Pozycja dostępna"
    case (Done, En) => "Title available"
    case (Restored, Pl) => "Pozycja przywrócona"
    case (Restored, En) => "Title restored"
    case (Deleted, Pl) => "Request usunięty"
    case (Deleted, En) => "Request deleted"
    case (Promoted, Pl) => "Pozycja po premierze"
    case (Promoted, En) => "Title released"
    case (Upcoming, Pl) => "Request przed premierą"
    case (Upcoming, En) => "Upcoming request"
  }

  /** A body: the text before the first value, between two values, and after the last. */
  datatype Template = Template(prefix: string, separator: string, suffix: string)

  function PolishTemplate(event: Event): (t: Template) {
    match event
    case AdminNew => Template("Użytkownik ", " dodał request „", "”.")
    case OwnLiked => Template("Ktoś polubił Twój request „", "", "”.")
    case StatusChanged => Template("Pozycja „", "” ma teraz status: ", ".")
    case Done => Template("Pozycja „", "", "” została zrealizowana i jest już dostępna.")
    case Restored => Template("Pozycja „", "", "” wróciła do aktywnych requestów.")
    case Deleted => Template("Request „", "” został usunięty. Powód: ", "")
    case Promoted => Template("Pozycja „", "", "” miała premierę i została przeniesiona do aktywnych requestów.")
    case Upcoming =>
      Template("Pozycja „", "", "” została sklasyfikowana jako przed premierą i umieszczona w karcie „Przed premierą”.")
  }

  function EnglishTemplate(event: Event): (t: Template) {
    match event
    case AdminNew => Template("User ", " added the request “", "”.")
    case OwnLiked => Template("Someone liked your request “", "", "”.")
    case StatusChanged => Template("The title “", "” now has status: ", ".")
    case Done => Template("The title “", "", "” was completed and is now available.")
    case Restored => Template("The title “", "", "” returned to active requests.")
    case Deleted => Template("The request “", "” was deleted. Reason: ", "")
    case Promoted => Template("The title “", "", "” was released and moved to active requests.")
    case Upcoming => Template("The title “", "", "” was classified as upcoming and placed on the Upcoming tab.")
  }

  function TemplateOf(event: Event, language: Language): (t: Template) {
    match language
    case Pl => PolishTemplate(event)
    case En => EnglishTemplate(event)
  }

  function TypeOf(event: Event): (t: NoteType) {
    match event
    case AdminNew => AdminNewRequest
    case OwnLiked => OwnRequestLiked
    case _ => RequestChanges
  }

  function StatusText(status: Status, language: Language): (text: string) {
    match (status, language)
    case (Waiting, Pl) => "Oczekujący"
    case (Waiting, En) => "Pending"
    case (Translation, Pl) => "W oczekiwaniu na premierę Blu-ray/VOD"
    case (Translation, En) => "Waiting for Blu-ray/VOD release"
    case (InProgress, Pl) => "W trakcie realizacji"
    case (InProgress, En) => "In progress"
    case (Missing, Pl) => "Aktualnie brak źródła"
    case (Missing, En) => "No source currently available"
  }

  // ---- Rendering ------------------------------------------------------------

  function Or(first: string, second: string): (s: string) {
    if first != "" then first else second
  }

  function SeasonWord(language: Language): (word: string) {
    match language
    case Pl => " — sezon "
    case En => " — season "
  }

  /** `_localized_label`. */
  function LocalizedLabel(payload: Payload, language: Language): (name: string) {
    var title := match payload.source
      case Literal(name) => Or(Strip(name), "—")
      case Titles(pl, en, original) => Or(Or(Strip(if language.Pl? then pl else en), Strip(original)), "—");
    match payload.season
    case None => title
    case Some(season) => title + SeasonWord(language) + Decimal(season)
  }

  /** The values of a body in the order of the template; None when one is missing. */
  function ValuesOf(event: Event, payload: Payload, language: Language): (values: Option<(string, string)>) {
    var name := LocalizedLabel(payload, language);
    match event
    case AdminNew => if payload.username.Some? then Some((payload.username.value, name)) else None
    case StatusChanged =>
      if payload.status.Some? then Some((name, StatusText(payload.status.value, language))) else None
    case Deleted => if payload.reason.Some? then Some((name, payload.reason.value)) else None
    case _ => Some((name, ""))
  }

  /** `render_event` for the request events. */
  function Render(event: Event, payload: Payload, language: Language): (r: Option<(string, string)>) {
    match ValuesOf(event, payload, language)
    case None => None
    case Some(values) =>
      var t := TemplateOf(event, language);
      Some((TitleOf(event, language), t.prefix + values.0 + t.separator + values.1 + t.suffix))
  }

  // ---- Recognition ----------------------------------------------------------

  /** The first position from `i` on where the separator stands and the suffix still fits. */
  function FirstSplit(s: string, separator: string, suffix: string, i: nat): (at: Option<nat>)
    ensures at.Some? ==> i <= at.value && at.value + |separator| + |suffix| <= |s|
    decreases |s| - i
  {
    if i + |separator| + |suffix| > |s| then None
    else if OccursAt(s, separator, i) then Some(i)
    else FirstSplit(s, separator, suffix, i + 1)
  }

  /** The last position before `i` where the separator stands and the suffix still fits. */
  function LastSplit(s: string, separator: string, suffix: string, i: nat): (at: Option<nat>)
    ensures at.Some? ==> at.value < i && at.value + |separator| + |suffix| <= |s|
  {
    if i == 0 then None
    else if i - 1 + |separator| + |suffix| <= |s| && OccursAt(s, separator, i - 1) then Some(i - 1)
    else LastSplit(s, separator, suffix, i - 1)
  }

  /** A full match of one pattern: the values it binds. */
  function MatchPattern(event: Event, t: Template, body: string): (values: Option<(string, string)>) {
    if !StartsWith(body, t.prefix) then None
    else
      var rest := body[|t.prefix|..];
      if !EndsWith(rest, t.suffix) then None
      else if !HasTwoValues(event) then Some((rest[..|rest| - |t.suffix|], ""))
      else
        var at := if event.AdminNew? then FirstSplit(rest, t.separator, t.suffix, 1)
                  else LastSplit(rest, t.separator, t.suffix, |rest| + 1);
        match at
        case None => None
        case Some(i) => Some((rest[..i], rest[i + |t.separator|..|rest| - |t.suffix|]))
  }

  predicate HasTwoValues(event: Event) {
    event.AdminNew? || event.StatusChanged? || event.Deleted?
  }

  /** `_match_body`: the Polish pattern is tried first. */
  function MatchBody(event: Event, body: string): (values: Option<(string, string)>) {
    var polish := MatchPattern(event, TemplateOf(event, Pl), body);
    if polish.Some? then polish else MatchPattern(event, TemplateOf(event, En), body)
  }

  /** The length of the run of digits that ends `s`. */
  function TrailingDigits(s: string): (n: nat)
    ensures n <= |s|
    ensures forall i :: |s| - n <= i < |s| ==> IsDigit(s[i])
    ensures n < |s| ==> !IsDigit(s[|s| - n - 1])
  {
    if s == "" || !IsDigit(s[|s| - 1]) then 0 else 1 + TrailingDigits(s[..|s| - 1])
  }

  /** A season suffix of a legacy label: `.` stops at a line end, `$` allows a last one. */
  function SplitSeason(value: string): (r: Option<(string, nat)>) {
    var line := if EndsWith(value, "\n") then value[..|value| - 1] else value;
    var n := TrailingDigits(line);
    var head := line[..|line| - n];
    var word := if EndsWith(head, SeasonWord(Pl)) then SeasonWord(Pl) else SeasonWord(En);
    if n == 0 || !EndsWith(head, word) || '\n' in head[..|head| - |word|] then None
    else Some((head[..|head| - |word|], ParseDecimal(line[|line| - n..])))
  }

  /** The titles and season of the request a row still links to. */
  datatype Linked = Linked(titles: Source, season: Option<nat>)

  /** `_request_payload`. */
  function PayloadOf(name: string, linked: Option<Linked>): (payload: Payload) {
    match linked
    case Some(l) => Payload(l.titles, l.season, None, None, None)
    case None =>
      match SplitSeason(name)
      case Some((front, season)) => Payload(Literal(front), Some(season), None, None, None)
      case None => Payload(Literal(name), None, None, None, None)
  }

  function StatusOf(text: string): (status: Option<Status>) {
    if text == StatusText(Waiting, Pl) || text == StatusText(Waiting, En) then Some(Waiting)
    else if text == StatusText(Translation, Pl) || text == StatusText(Translation, En) then Some(Translation)
    else if text == StatusText(InProgress, Pl) || text == StatusText(InProgress, En) then Some(InProgress)
    else if text == StatusText(Missing, Pl) || text == StatusText(Missing, En) then Some(Missing)
    else None
  }

  const EVENTS := [AdminNew, OwnLiked, StatusChanged, Done, Restored, Deleted, Promoted, Upcoming]

  /** The first definition with this type and one of its titles. */
  function Definition(t: NoteType, title: string, events: seq<Event>): (event: Option<Event>) {
    if events == [] then None
    else if TypeOf(events[0]) == t && (title == TitleOf(events[0], Pl) || title == TitleOf(events[0], En))
    then Some(events[0])
    else Definition(t, title, events[1..])
  }

  /** The payload of an event with the matched values; None for an unknown status. */
  function Assemble(event: Event, values: (string, string), linked: Option<Linked>): (payload: Option<Payload>) {
    match event
    case AdminNew => Some(PayloadOf(values.1, linked).(username := Some(values.0)))
    case Deleted => Some(PayloadOf(values.0, linked).(reason := Some(values.1)))
    case StatusChanged =>
      if StatusOf(values.1).None? then None
      else Some(PayloadOf(values.0, linked).(status := StatusOf(values.1)))
    case _ => Some(PayloadOf(values.0, linked))
  }

  /** `classify_legacy_notification` for the request events. */
  function Classify(t: NoteType, title: string, body: string, linked: Option<Linked>): (r: Option<(Event, Payload)>) {
    match Definition(t, title, EVENTS)
    case None => None
    case Some(event) =>
      match MatchBody(event, body)
      case None => None
      case Some(values) =>
        match Assemble(event, values, linked)
        case None => None
        case Some(payload) => Some((event, payload))
  }

  // ---- Migration ------------------------------------------------------------

  /** A stored notification; `event` is missing on legacy rows. */
  datatype Row = Row(t: NoteType, title: string, body: string, linked: Option<Linked>, event: Option<(Event, Payload)>)

  function MigratedRow(row: Row, classify: Row -> Option<(Event, Payload)>): (r: Row) {
    if row.event.Some? then row else row.(event := classify(row))
  }

  function MigratedRows(rows: seq<Row>, classify: Row -> Option<(Event, Payload)>): (r: seq<Row>) {
    seq(|rows|, i requires 0 <= i < |rows| => MigratedRow(rows[i], classify))
  }

  /** The rows that a migration gives an event. */
  ghost function Gains(rows: seq<Row>, classify: Row -> Option<(Event, Payload)>): (gains: set<nat>) {
    set i: nat | i < |rows| && rows[i].event == None && classify(rows[i]) != None
  }

  lemma GainsGrow(rows: seq<Row>, k: nat, classify: Row -> Option<(Event, Payload)>)
    requires k < |rows|
    ensures |Gains(rows[..k + 1], classify)|
         == |Gains(rows[..k], classify)| + if rows[k].event.None? && classify(rows[k]).Some? then 1 else 0
  {
    if rows[k].event.None? && classify(rows[k]).Some? {
      assert Gains(rows[..k + 1], classify) == Gains(rows[..k], classify) + {k};
    } else {
      assert Gains(rows[..k + 1], classify) == Gains(rows[..k], classify);
    }
  }

  /** `migrate_legacy_notifications`, in place; for the request events the classifier
      is Classify on the columns of the row. The answer is the number of rows that
      gained an event. */
  method Migrate(rows: array<Row>, classify: Row -> Option<(Event, Payload)>) returns (migrated: nat)
    modifies rows
    ensures rows[..] == MigratedRows(old(rows[..]), classify)
    ensures migrated == |Gains(old(rows[..]), classify)|
    ensures forall i | 0 <= i < rows.Length ::
      var row := old(rows[i]);
      rows[i] == if row.event == None then Row(row.t, row.title, row.body, row.linked, classify(row)) else row
  {
    migrated := 0;
    for k := 0 to rows.Length
      invariant forall i :: 0 <= i < k ==> rows[i] == MigratedRow(old(rows[i]), classify)
      invariant forall i :: k <= i < rows.Length ==> rows[i] == old(rows[i])
      invariant migrated == |Gains(old(rows[..])[..k], classify)|
    {
      GainsGrow(old(rows[..]), k, classify);
      if rows[k].event.None? {
        var classified := classify(rows[k]);
        if classified.Some? {
          rows[k] := rows[k].(event := classified);
          migrated := migrated + 1;
        }
      }
    }
    assert old(rows[..])[..rows.Length] == old(rows[..]);
  }
}
