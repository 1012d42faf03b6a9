/**
 * The news-recipe scheduler of `web/feeds/recipes/collection.py`: how a
 * schedule is written into and read back from the scheduler file, when a
 * scheduled recipe is due for download, and the `SchedulerConfig` store of
 * scheduled recipes, recipe customisations and account records.
 *
 * Times are whole seconds since the Unix epoch (UTC); local wall-clock
 * readings are `LocalTime` records supplied by the caller.
 */
module RecipeScheduler {
  import opened Wrappers
  import opened Strings

  /** The exceptions the scheduler code can raise. */
  datatype Failure = ValueError | TypeError | IndexError | KeyError

  /** 1970-01-01, used when a recipe was never downloaded. */
  const Epoch: int := 0
  /** 0101-01-01, used when the stored download time cannot be parsed. */
  const UndefinedDate: int := -58979923200
  /** The smallest interval a schedule may have: 0.04 days. */
  const MinIntervalSeconds: int := 3456
  const Hour: int := 3600

  // ---------------------------------------------------------------- schedules

  /** The schedule a caller passes to `schedule_recipe`. */
  datatype ScheduleArg =
    | IntervalArg(seconds: int)
    | TimeArg(day: int, hour: int, minute: int)
    | DaysArg(days: seq<int>, hour: int, minute: int)

  /** The schedule `un_serialize_schedule` reads back. */
  datatype Sch =
    | IntervalSch(seconds: int)
    | IntsSch(values: seq<int>)
    | DaysSch(days: seq<int>, hour: int, minute: int)
    | TextSch(text: string)

  predicate IsDayKind(typ: string) {
    typ == "day/time" || typ == "days_of_week" || typ == "days_of_month"
  }

  function IntsToStrings(xs: seq<int>): (r: seq<string>)
    ensures |r| == |xs| && forall k :: 0 <= k < |xs| ==> r[k] == IntToString(xs[k])
  {
    if xs == [] then [] else [IntToString(xs[0])] + IntsToStrings(xs[1..])
  }

  /** `list(map(int, pieces))`, where `int` ignores surrounding whitespace. */
  function ParseInts(pieces: seq<string>): (r: Option<seq<int>>)
    ensures r.Some? ==> |r.value| == |pieces|
  {
    if pieces == [] then Some([])
    else match (ParseInt(pieces[0]), ParseInts(pieces[1..]))
      case (Some(x), Some(rest)) => Some([x] + rest)
      case _ => None
  }

  /** The text of the `schedule` element `serialize_schedule` writes for a schedule of the given type. */
  function SerializeSchedule(typ: string, sch: ScheduleArg): (r: Result<string, Failure>)
    ensures r.Err? ==> (r.error == ValueError <==> typ != "interval" && !IsDayKind(typ))
    ensures r.Ok? && typ == "interval" ==> ParseInt(r.value).Some? && ParseInt(r.value).value >= MinIntervalSeconds
  {
    if typ == "interval" then
      if sch.IntervalArg? then
        var n := if sch.seconds < MinIntervalSeconds then MinIntervalSeconds else sch.seconds;
        ParseIntToString(n);
        Ok(IntToString(n))
      else Err(TypeError)
    else if typ == "day/time" then
      if sch.TimeArg? then Ok(Join([IntToString(sch.day), IntToString(sch.hour), IntToString(sch.minute)], ":"))
      else Err(TypeError)
    else if typ == "days_of_week" || typ == "days_of_month" then
      if sch.DaysArg? then
        Ok(Join([Join(IntsToStrings(sch.days), ","), IntToString(sch.hour), IntToString(sch.minute)], ":"))
      else Err(TypeError)
    else Err(ValueError)
  }

  /** `un_serialize_schedule` for a `schedule` element of the given type and text. */
  function ParseSchedule(typ: string, text: string): (r: Result<Sch, Failure>)
    ensures r.Err? ==> typ == "interval" || IsDayKind(typ)
    ensures r.Ok? ==> (r.value.IntervalSch? <==> typ == "interval")
    ensures r.Ok? ==> (r.value.DaysSch? <==> typ == "days_of_week" || typ == "days_of_month")
    ensures r == Err(IndexError) ==> (typ == "days_of_week" || typ == "days_of_month") && |Split(text, ':')| < 3
  {
    if typ == "interval" then
      match ParseInt(text)
      case None => Err(ValueError)
      case Some(s) => Ok(IntervalSch(s))
    else if typ == "day/time" then
      match ParseInts(Split(text, ':'))
      case None => Err(ValueError)
      case Some(vs) => Ok(IntsSch(vs))
    else if typ == "days_of_week" || typ == "days_of_month" then
      var parts := Split(text, ':');
      match ParseInts(Split(parts[0], ','))
      case None => Err(ValueError)
      case Some(days) =>
        // `int(parts[1])` is evaluated before `parts[2]` is indexed
        if |parts| < 2 then Err(IndexError)
        else match ParseInt(parts[1])
          case None => Err(ValueError)
          case Some(h) =>
            if |parts| < 3 then Err(IndexError)
            else match ParseInt(parts[2])
              case None => Err(ValueError)
              case Some(m) => Ok(DaysSch(days, h, m))
    else Ok(TextSch(text))
  }

  /** An unknown schedule type cannot be written. */
  lemma SerializeUnknown(typ: string, sch: ScheduleArg)
    requires typ != "interval" && !IsDayKind(typ)
    ensures SerializeSchedule(typ, sch) == Err(ValueError)
  {
  }

  lemma NoSeparatorInInt(i: int)
    ensures ':' !in IntToString(i) && ',' !in IntToString(i)
  {
    IntToStringChars(i);
  }

  lemma {:induction false} ParseIntsInts(xs: seq<int>)
    ensures ParseInts(IntsToStrings(xs)) == Some(xs)
  {
    if xs != [] {
      ParseIntToString(xs[0]);
      ParseIntsInts(xs[1..]);
      assert IntsToStrings(xs)[1..] == IntsToStrings(xs[1..]);
      assert [xs[0]] + xs[1..] == xs;
    }
  }

  /** A day list written without commas inside its numbers splits back into those numbers. */
  lemma DaysRoundTrip(days: seq<int>)
    requires days != []
    ensures ':' !in Join(IntsToStrings(days), ",")
    ensures Split(Join(IntsToStrings(days), ","), ',') == IntsToStrings(days)
  {
    var ps := IntsToStrings(days);
    forall k | 0 <= k < |ps| ensures ',' !in ps[k] && ':' !in ps[k] {
      NoSeparatorInInt(days[k]);
    }
    SplitJoin(ps, ',');
    JoinAvoids(ps, ",", ':');
  }

  lemma {:induction false} JoinAvoids(parts: seq<string>, sep: string, c: char)
    requires c !in sep && forall k :: 0 <= k < |parts| ==> c !in parts[k]
    ensures c !in Join(parts, sep)
  {
    if |parts| > 1 {
      JoinAvoids(parts[1..], sep, c);
    }
  }

  /** Reading back a written schedule gives the schedule written (the interval raised to its minimum). */
  lemma ScheduleRoundTrip(typ: string, sch: ScheduleArg)
    requires SerializeSchedule(typ, sch).Ok?
    requires sch.DaysArg? ==> sch.days != []
    ensures ParseSchedule(typ, SerializeSchedule(typ, sch).value) == Ok(
      match sch
      case IntervalArg(s) => IntervalSch(if s < MinIntervalSeconds then MinIntervalSeconds else s)
      case TimeArg(d, h, m) => IntsSch([d, h, m])
      case DaysArg(days, h, m) => DaysSch(days, h, m))
  {
    match sch
    case IntervalArg(s) =>
      ParseIntToString(if s < MinIntervalSeconds then MinIntervalSeconds else s);
    case TimeArg(d, h, m) =>
      var ps := [IntToString(d), IntToString(h), IntToString(m)];
      NoSeparatorInInt(d); NoSeparatorInInt(h); NoSeparatorInInt(m);
      SplitJoin(ps, ':');
      ParseIntsInts([d, h, m]);
      assert IntsToStrings([d, h, m]) == ps;
    case DaysArg(days, h, m) =>
      var dt := Join(IntsToStrings(days), ",");
      var ps := [dt, IntToString(h), IntToString(m)];
      DaysRoundTrip(days);
      NoSeparatorInInt(h); NoSeparatorInInt(m);
      SplitJoin(ps, ':');
      ParseIntsInts(days);
      ParseIntToString(h);
      ParseIntToString(m);
  }

  /** An empty day list is written as `:h:m`, which cannot be read back. */
  lemma EmptyDaysUnreadable(typ: string, h: int, m: int)
    requires typ == "days_of_week" || typ == "days_of_month"
    ensures ParseSchedule(typ, SerializeSchedule(typ, DaysArg([], h, m)).value) == Err(ValueError)
  {
    var ps := ["", IntToString(h), IntToString(m)];
    NoSeparatorInInt(h); NoSeparatorInInt(m);
    SplitJoin(ps, ':');
    assert Split("", ',') == [""];
    assert ParseInt("") == None;
  }

  /** A day schedule with an unreadable hour and no minute fails on the hour
      (`ValueError`) before the missing minute is indexed. */
  lemma HourReadBeforeMinute(typ: string, d: string, h: string)
    requires typ == "days_of_week" || typ == "days_of_month"
    requires ':' !in d && ':' !in h
    requires ParseInts(Split(d, ',')).Some? && ParseInt(h).None?
    ensures ParseSchedule(typ, d + ":" + h) == Err(ValueError)
  {
    SplitJoin([d, h], ':');
    assert Join([d, h], ":") == d + ":" + h;
  }

  // ---------------------------------------------------------------- the due rule

  /** A local wall-clock reading; `weekday` is 0 for Monday. */
  datatype LocalTime = LocalTime(year: int, month: int, day: int, weekday: int, hour: int, minute: int)

  predicate IsTime(now: LocalTime, hour: int, minute: int) {
    now.hour > hour || (now.hour == hour && now.minute >= minute)
  }

  /** A day outside 0..6 stands for every day of the week. */
  predicate IsWeekday(day: int, now: LocalTime) {
    day < 0 || day > 6 || day == now.weekday
  }

  predicate SameDate(a: LocalTime, b: LocalTime) {
    a.year == b.year && a.month == b.month && a.day == b.day
  }

  predicate AnyWeekday(days: seq<int>, now: LocalTime) {
    exists k :: 0 <= k < |days| && IsWeekday(days[k], now)
  }

  /** `un_serialize_schedule` on a stored recipe: its type, schedule and last download time. */
  function UnSerialize(schedule: Option<(string, string)>, lastDownloaded: Option<int>)
    : Result<(string, Sch, int), Failure>
  {
    match schedule
    case None => Err(TypeError)
    case Some((typ, text)) =>
      match ParseSchedule(typ, text)
      case Err(e) => Err(e)
      case Ok(sch) => Ok((typ, sch, if lastDownloaded.Some? then lastDownloaded.value else UndefinedDate))
  }

  /**
   * `recipe_needs_to_be_downloaded`. `nowUtc` and `now` are the current
   * time, `toLocal` converts a stored time to local time (`None` where the
   * conversion raises). A day/time schedule without exactly three numbers
   * raises, because it is unpacked outside the guarded block.
   */
  function NeedsDownload(schedule: Option<(string, string)>, lastDownloaded: Option<int>, nowUtc: int,
                         now: LocalTime, toLocal: int -> Option<LocalTime>): (r: Result<bool, Failure>)
    ensures r.Err? ==> schedule.Some? && schedule.value.0 == "day/time"
    ensures r == Ok(true) ==> schedule.Some? && (schedule.value.0 == "interval" || IsDayKind(schedule.value.0))
  {
    match UnSerialize(schedule, lastDownloaded)
    case Err(_) => Ok(false)
    case Ok((typ, sch, ld)) =>
      if typ == "interval" then
        Ok(sch.IntervalSch? && nowUtc - ld > sch.seconds)
      else if IsDayKind(typ) then
        match toLocal(ld)
        case None => Ok(false)
        case Some(ldLocal) =>
          if typ == "day/time" then
            if !sch.IntsSch? || |sch.values| != 3 then Err(ValueError)
            else Ok(IsWeekday(sch.values[0], now) && !SameDate(ldLocal, now) && IsTime(now, sch.values[1], sch.values[2]))
          else if !sch.DaysSch? then Ok(false)
          else if typ == "days_of_week" then
            Ok(AnyWeekday(sch.days, now) && !SameDate(ldLocal, now) && IsTime(now, sch.hour, sch.minute))
          else
            Ok(now.day in sch.days && !SameDate(ldLocal, now) && IsTime(now, sch.hour, sch.minute))
      else Ok(false)
  }

  /** The `for day in days` loop of the days-of-week rule. */
  method HaveWeekday(days: seq<int>, now: LocalTime) returns (have: bool)
    ensures have <==> AnyWeekday(days, now)
  {
    have := false;
    var i := 0;
    while i < |days|
      invariant 0 <= i <= |days|
      invariant forall k :: 0 <= k < i ==> !IsWeekday(days[k], now)
    {
      if IsWeekday(days[i], now) {
        have := true;
        return;
      }
      i := i + 1;
    }
  }

  /** `recipe_needs_to_be_downloaded` with its day loop. */
  method RecipeNeedsToBeDownloaded(schedule: Option<(string, string)>, lastDownloaded: Option<int>, nowUtc: int,
                                   now: LocalTime, toLocal: int -> Option<LocalTime>) returns (r: Result<bool, Failure>)
    ensures r == NeedsDownload(schedule, lastDownloaded, nowUtc, now, toLocal)
  {
    var u := UnSerialize(schedule, lastDownloaded);
    if u.Err? {
      return Ok(false);
    }
    var (typ, sch, ld) := u.value;
    if typ == "interval" {
      return Ok(sch.IntervalSch? && nowUtc - ld > sch.seconds);
    }
    if !IsDayKind(typ) {
      return Ok(false);
    }
    var local := toLocal(ld);
    if local.None? {
      return Ok(false);
    }
    var notToday := !SameDate(local.value, now);
    if typ == "day/time" {
      if !sch.IntsSch? || |sch.values| != 3 {
        return Err(ValueError);
      }
      return Ok(IsWeekday(sch.values[0], now) && notToday && IsTime(now, sch.values[1], sch.values[2]));
    }
    if !sch.DaysSch? {
      return Ok(false);
    }
    var have: bool;
    if typ == "days_of_week" {
      have := HaveWeekday(sch.days, now);
    } else {
      have := now.day in sch.days;
    }
    r := Ok(have && notToday && IsTime(now, sch.hour, sch.minute));
  }

  /** A schedule of an unknown type is never due. */
  lemma UnknownNeverDue(typ: string, text: string, ld: Option<int>, nowUtc: int, now: LocalTime,
                        toLocal: int -> Option<LocalTime>)
    requires typ != "interval" && !IsDayKind(typ)
    ensures NeedsDownload(Some((typ, text)), ld, nowUtc, now, toLocal) == Ok(false)
  {
  }

  /**
   * A recipe scheduled on a day of the week at a time is due exactly when
   * the day matches (every day for a day outside 0..6), it was not
   * downloaded earlier the same local day and the time has been reached.
   */
  lemma DayTimeDue(d: int, h: int, m: int, ld: int, nowUtc: int, now: LocalTime, toLocal: int -> Option<LocalTime>)
    ensures NeedsDownload(Some(("day/time", SerializeSchedule("day/time", TimeArg(d, h, m)).value)), Some(ld),
                          nowUtc, now, toLocal)
            == Ok(toLocal(ld).Some? && IsWeekday(d, now) && !SameDate(toLocal(ld).value, now) && IsTime(now, h, m))
  {
    ScheduleRoundTrip("day/time", TimeArg(d, h, m));
  }

  /** The days-of-week rule: some listed day matches, not downloaded today, time reached. */
  lemma DaysOfWeekDue(days: seq<int>, h: int, m: int, ld: int, nowUtc: int, now: LocalTime,
                      toLocal: int -> Option<LocalTime>)
    requires days != []
    ensures NeedsDownload(Some(("days_of_week", SerializeSchedule("days_of_week", DaysArg(days, h, m)).value)),
                          Some(ld), nowUtc, now, toLocal)
            == Ok(toLocal(ld).Some? && AnyWeekday(days, now) && !SameDate(toLocal(ld).value, now) && IsTime(now, h, m))
  {
    ScheduleRoundTrip("days_of_week", DaysArg(days, h, m));
  }

  /** The days-of-month rule: today's date is listed, not downloaded today, time reached. */
  lemma DaysOfMonthDue(days: seq<int>, h: int, m: int, ld: int, nowUtc: int, now: LocalTime,
                       toLocal: int -> Option<LocalTime>)
    requires days != []
    ensures NeedsDownload(Some(("days_of_month", SerializeSchedule("days_of_month", DaysArg(days, h, m)).value)),
                          Some(ld), nowUtc, now, toLocal)
            == Ok(toLocal(ld).Some? && now.day in days && !SameDate(toLocal(ld).value, now) && IsTime(now, h, m))
  {
    ScheduleRoundTrip("days_of_month", DaysArg(days, h, m));
  }

  /** An interval recipe is due once more than the interval (at least 0.04 days) has passed. */
  lemma IntervalDue(s: int, ld: int, nowUtc: int, now: LocalTime, toLocal: int -> Option<LocalTime>)
    ensures NeedsDownload(Some(("interval", SerializeSchedule("interval", IntervalArg(s)).value)), Some(ld),
                          nowUtc, now, toLocal)
            == Ok(nowUtc - ld > (if s < MinIntervalSeconds then MinIntervalSeconds else s))
  {
    ScheduleRoundTrip("interval", IntervalArg(s));
  }

  // ---------------------------------------------------------------- the store

  /** The user's customisation of a recipe, as `get_customize_info` returns it. */
  datatype RecipeCustomization =
    RecipeCustomization(addTitleTag: bool, customTags: seq<string>, keepIssues: int, options: string)

  /** A child of the scheduler file's root element. */
  datatype Entry =
    | ScheduledRecipe(id: string, title: string, lastDownloaded: Option<int>, schedule: Option<(string, string)>)
    | Customization(id: string, keepIssues: string, addTitleTag: string, customTags: string, options: string)
    | AccountInfo(id: string, username: string, password: string)

  datatype Kind = RecipeKind | CustomizationKind | AccountKind

  predicate Matches(e: Entry, kind: Kind, id: string) {
    e.id == id && match kind
      case RecipeKind => e.ScheduledRecipe?
      case CustomizationKind => e.Customization?
      case AccountKind => e.AccountInfo?
  }

  /** Index of the first entry of a kind with an id, or -1. */
  function FirstMatch(root: seq<Entry>, kind: Kind, id: string): (i: int)
    ensures -1 <= i < |root|
    ensures i >= 0 ==> Matches(root[i], kind, id)
    ensures forall k :: 0 <= k < |root| && (i < 0 || k < i) ==> !Matches(root[k], kind, id)
  {
    if root == [] then -1
    else if Matches(root[0], kind, id) then 0
    else var j := FirstMatch(root[1..], kind, id); if j < 0 then -1 else j + 1
  }

  function RemoveAt<T>(s: seq<T>, i: int): (r: seq<T>)
    ensures 0 <= i < |s| ==> |r| == |s| - 1
  {
    if 0 <= i < |s| then s[..i] + s[i + 1..] else s
  }

  /** The entries that are not of a kind with an id, in order. */
  function RemoveMatches(root: seq<Entry>, kind: Kind, id: string): (r: seq<Entry>)
    ensures forall e :: e in r ==> e in root && !Matches(e, kind, id)
    ensures forall e :: e in root && !Matches(e, kind, id) ==> e in r
  {
    if root == [] then []
    else (if Matches(root[0], kind, id) then [] else [root[0]]) + RemoveMatches(root[1..], kind, id)
  }

  /** No two entries of a kind share an id. */
  predicate UniqueIds(root: seq<Entry>, kind: Kind) {
    forall i, j :: 0 <= i < j < |root| && Matches(root[i], kind, root[i].id) ==> !Matches(root[j], kind, root[i].id)
  }

  /** The download time `schedule_recipe` keeps: the given one, else the replaced entry's, else the epoch. */
  function KeptDownloadTime(root: seq<Entry>, i: int, lastDownloaded: Option<int>): int
    requires -1 <= i < |root|
  {
    if lastDownloaded.Some? then lastDownloaded.value
    else if i >= 0 && root[i].ScheduledRecipe? && root[i].lastDownloaded.Some? then root[i].lastDownloaded.value
    else Epoch
  }

  /**
   * The root after `schedule_recipe`: the first recipe with that id is
   * removed and the new one appended. An unknown schedule type raises after
   * the removal, so the old entry is then lost and nothing is appended.
   */
  function ScheduledRoot(root: seq<Entry>, id: string, title: string, typ: string, sch: ScheduleArg,
                         lastDownloaded: Option<int>): seq<Entry>
  {
    var i := FirstMatch(root, RecipeKind, id);
    var removed := RemoveAt(root, i);
    match SerializeSchedule(typ, sch)
    case Err(_) => removed
    case Ok(text) =>
      removed + [ScheduledRecipe(id, title, Some(KeptDownloadTime(root, i, lastDownloaded)), Some((typ, text)))]
  }

  /** The root after `customize_recipe`: every customisation of the urn replaced by one, appended. */
  function CustomizedRoot(root: seq<Entry>, urn: string, val: RecipeCustomization): seq<Entry> {
    RemoveMatches(root, CustomizationKind, urn)
      + [Customization(urn, IntToString(val.keepIssues), if val.addTitleTag then "yes" else "no",
                       Join(val.customTags, ","), val.options)]
  }

  /** The root after `set_account_info`. */
  function AccountRoot(root: seq<Entry>, urn: string, username: string, password: string): seq<Entry> {
    RemoveAt(root, FirstMatch(root, AccountKind, urn)) + [AccountInfo(urn, username, password)]
  }

  /** `get_account_info`: the first account record with the urn. */
  function AccountOf(root: seq<Entry>, urn: string): Option<(string, string)> {
    var i := FirstMatch(root, AccountKind, urn);
    if i < 0 then None else Some((root[i].username, root[i].password))
  }

  /** The customisation returned when none is stored. */
  const DefaultCustomization := RecipeCustomization(true, [], 0, "{}")

  /** `get_customize_info`: the first customisation with the urn, read back, or the defaults. */
  function CustomizeInfoOf(root: seq<Entry>, urn: string): Result<RecipeCustomization, Failure> {
    var i := FirstMatch(root, CustomizationKind, urn);
    if i < 0 then Ok(DefaultCustomization)
    else
      var e := root[i];
      match ParseInt(e.keepIssues)
      case None => Err(ValueError)
      case Some(keep) => Ok(RecipeCustomization(e.addTitleTag == "yes", StripAll(Split(e.customTags, ',')), keep, e.options))
  }

  function StripAll(pieces: seq<string>): (r: seq<string>)
    ensures |r| == |pieces| && forall k :: 0 <= k < |r| ==> r[k] == Strip(pieces[k])
  {
    if pieces == [] then [] else [Strip(pieces[0])] + StripAll(pieces[1..])
  }

  /** The stored time after `update_last_downloaded`, snapped to the nominal interval when within an hour of it. */
  function SnappedTime(typ: string, sch: Sch, ld: int, now: int): int {
    if typ == "interval" && sch.IntervalSch? && -Hour < now - ld - sch.seconds < Hour then ld + sch.seconds
    else now
  }

  /** The root after `update_last_downloaded`; reading the schedule may raise. */
  function UpdatedRoot(root: seq<Entry>, id: string, now: int): Result<seq<Entry>, Failure> {
    var i := FirstMatch(root, RecipeKind, id);
    if i < 0 then Ok(root)
    else
      var e := root[i];
      match UnSerialize(e.schedule, e.lastDownloaded)
      case Err(f) => Err(f)
      case Ok((typ, sch, ld)) => Ok(root[i := e.(lastDownloaded := Some(SnappedTime(typ, sch, ld, now)))])
  }

  class SchedulerConfig {
    /** The children of the scheduler file's root element, in document order. */
    var root: seq<Entry>

    constructor ()
      ensures root == []
    {
      root := [];
    }

    /** The index of the first entry of a kind with an id, or -1 (the `for x in …: if x.get('id') == …` scans). */
    method FindFirst(kind: Kind, id: string) returns (i: int)
      ensures i == FirstMatch(root, kind, id)
    {
      i := 0;
      while i < |root|
        invariant 0 <= i <= |root|
        invariant FirstMatch(root, kind, id) < 0 || i <= FirstMatch(root, kind, id)
      {
        if Matches(root[i], kind, id) {
          return;
        }
        i := i + 1;
      }
      i := -1;
    }

    method ScheduleRecipe(id: string, title: string, typ: string, sch: ScheduleArg, lastDownloaded: Option<int>)
      returns (r: Result<(), Failure>)
      modifies this
      ensures r.Err? <==> SerializeSchedule(typ, sch).Err?
      ensures root == ScheduledRoot(old(root), id, title, typ, sch, lastDownloaded)
    {
      var i := FindFirst(RecipeKind, id);
      var kept := KeptDownloadTime(root, i, lastDownloaded);
      root := RemoveAt(root, i);
      var text := SerializeSchedule(typ, sch);
      if text.Err? {
        return Err(text.error);
      }
      root := root + [ScheduledRecipe(id, title, Some(kept), Some((typ, text.value)))];
      r := Ok(());
    }

    method CustomizeRecipe(urn: string, val: RecipeCustomization)
      modifies this
      ensures root == CustomizedRoot(old(root), urn, val)
    {
      var kept: seq<Entry> := [];
      var i := 0;
      while i < |root|
        invariant 0 <= i <= |root|
        invariant kept == RemoveMatches(root[..i], CustomizationKind, urn)
        invariant root == old(root)
      {
        assert root[..i + 1] == root[..i] + [root[i]];
        RemoveMatchesAppend(root[..i], [root[i]], CustomizationKind, urn);
        if !Matches(root[i], CustomizationKind, urn) {
          kept := kept + [root[i]];
        }
        i := i + 1;
      }
      assert root[..i] == root;
      assert kept == RemoveMatches(old(root), CustomizationKind, urn);
      root := kept + [Customization(urn, IntToString(val.keepIssues), if val.addTitleTag then "yes" else "no",
                                    Join(val.customTags, ","), val.options)];
    }

    method UnScheduleRecipe(id: string)
      modifies this
      ensures root == RemoveAt(old(root), FirstMatch(old(root), RecipeKind, id))
    {
      var i := FindFirst(RecipeKind, id);
      root := RemoveAt(root, i);
    }

    method UpdateLastDownloaded(id: string, now: int) returns (r: Result<(), Failure>)
      modifies this
      ensures UpdatedRoot(old(root), id, now).Ok? ==> r.Ok? && root == UpdatedRoot(old(root), id, now).value
      ensures UpdatedRoot(old(root), id, now).Err? ==> r.Err? && root == old(root)
    {
      var i := FindFirst(RecipeKind, id);
      if i < 0 {
        return Ok(());
      }
      var e := root[i];
      var u := UnSerialize(e.schedule, e.lastDownloaded);
      if u.Err? {
        return Err(u.error);
      }
      var (typ, sch, ld) := u.value;
      root := root[i := e.(lastDownloaded := Some(SnappedTime(typ, sch, ld, now)))];
      r := Ok(());
    }

    method SetAccountInfo(urn: string, username: string, password: string)
      modifies this
      ensures root == AccountRoot(old(root), urn, username, password)
    {
      var i := FindFirst(AccountKind, urn);
      root := RemoveAt(root, i) + [AccountInfo(urn, username, password)];
    }

    method GetAccountInfo(urn: string) returns (r: Option<(string, string)>)
      ensures r == AccountOf(root, urn)
    {
      var i := FindFirst(AccountKind, urn);
      if i < 0 {
        return None;
      }
      r := Some((root[i].username, root[i].password));
    }

    method GetCustomizeInfo(urn: string) returns (r: Result<RecipeCustomization, Failure>)
      ensures r == CustomizeInfoOf(root, urn)
    {
      var i := FindFirst(CustomizationKind, urn);
      if i < 0 {
        return Ok(DefaultCustomization);
      }
      var e := root[i];
      var keep := ParseInt(e.keepIssues);
      if keep.None? {
        return Err(ValueError);
      }
      var tags := StripPieces(Split(e.customTags, ','));
      r := Ok(RecipeCustomization(e.addTitleTag == "yes", tags, keep.value, e.options));
    }
  }

  /** `tuple(i.strip() for i in pieces)`. */
  method StripPieces(pieces: seq<string>) returns (tags: seq<string>)
    ensures tags == StripAll(pieces)
  {
    tags := [];
    var k := 0;
    while k < |pieces|
      invariant 0 <= k <= |pieces|
      invariant tags == StripAll(pieces[..k])
    {
      assert pieces[..k + 1] == pieces[..k] + [pieces[k]];
      StripAllAppend(pieces[..k], [pieces[k]]);
      tags := tags + [Strip(pieces[k])];
      k := k + 1;
    }
    assert pieces[..k] == pieces;
  }

  lemma {:induction false} RemoveMatchesAppend(a: seq<Entry>, b: seq<Entry>, kind: Kind, id: string)
    ensures RemoveMatches(a + b, kind, id) == RemoveMatches(a, kind, id) + RemoveMatches(b, kind, id)
    decreases |a|
  {
    if a == [] {
      assert a + b == b;
    } else {
      assert (a + b)[1..] == a[1..] + b;
      RemoveMatchesAppend(a[1..], b, kind, id);
    }
  }

  lemma StripAllAppend(a: seq<string>, b: seq<string>)
    ensures StripAll(a + b) == StripAll(a) + StripAll(b)
  {
  }

  // ---------------------------------------------------------------- properties of the store

  /**
   * Scheduling a recipe leaves every other entry in place and in order, and
   * keeps recipe ids unique; the recipe found under the id afterwards is the
   * new one, carrying the kept download time.
   */
  lemma ScheduleReplaces(root: seq<Entry>, id: string, title: string, typ: string, sch: ScheduleArg,
                         lastDownloaded: Option<int>)
    requires UniqueIds(root, RecipeKind)
    requires SerializeSchedule(typ, sch).Ok?
    ensures var after := ScheduledRoot(root, id, title, typ, sch, lastDownloaded);
      var i := FirstMatch(root, RecipeKind, id);
      && UniqueIds(after, RecipeKind)
      && after[..|after| - 1] == RemoveAt(root, i)
      && FirstMatch(after, RecipeKind, id) == |after| - 1
      && after[|after| - 1].lastDownloaded == Some(KeptDownloadTime(root, i, lastDownloaded))
  {
    var after := ScheduledRoot(root, id, title, typ, sch, lastDownloaded);
    var i := FirstMatch(root, RecipeKind, id);
    var removed := RemoveAt(root, i);
    assert after[..|after| - 1] == removed;
    RemovedHasNoOther(root, RecipeKind, id);
    AppendUnique(removed, RecipeKind, after[|after| - 1]);
    FirstMatchLast(removed, RecipeKind, after[|after| - 1]);
  }

  /** After the first entry with an id is removed from unique entries, none with that id is left. */
  lemma RemovedHasNoOther(root: seq<Entry>, kind: Kind, id: string)
    requires UniqueIds(root, kind)
    ensures var r := RemoveAt(root, FirstMatch(root, kind, id));
      UniqueIds(r, kind) && forall k :: 0 <= k < |r| ==> !Matches(r[k], kind, id)
  {
    var i := FirstMatch(root, kind, id);
    var r := RemoveAt(root, i);
    if i >= 0 {
      forall k | 0 <= k < |r| ensures !Matches(r[k], kind, id) && r[k] == root[if k < i then k else k + 1] {
        if k >= i {
          assert r[k] == root[k + 1];
          assert Matches(root[i], kind, root[i].id);
        }
      }
      forall a, b | 0 <= a < b < |r| && Matches(r[a], kind, r[a].id) ensures !Matches(r[b], kind, r[a].id) {
        var a', b' := if a < i then a else a + 1, if b < i then b else b + 1;
        assert r[a] == root[a'] && r[b] == root[b'];
      }
    }
  }

  lemma AppendUnique(r: seq<Entry>, kind: Kind, e: Entry)
    requires UniqueIds(r, kind) && forall k :: 0 <= k < |r| ==> !Matches(r[k], kind, e.id)
    ensures UniqueIds(r + [e], kind)
  {
    var s := r + [e];
    forall a, b | 0 <= a < b < |s| && Matches(s[a], kind, s[a].id) ensures !Matches(s[b], kind, s[a].id) {
      if b == |r| {
        assert s[a] == r[a];
      }
    }
  }

  lemma {:induction false} FirstMatchLast(r: seq<Entry>, kind: Kind, e: Entry)
    requires forall k :: 0 <= k < |r| ==> !Matches(r[k], kind, e.id)
    requires Matches(e, kind, e.id)
    ensures FirstMatch(r + [e], kind, e.id) == |r|
    decreases |r|
  {
    if r == [] {
      assert r + [e] == [e];
    } else {
      assert (r + [e])[1..] == r[1..] + [e];
      assert !Matches(r[0], kind, e.id);
      FirstMatchLast(r[1..], kind, e);
    }
  }

  /** After `set_account_info`, the urn reads back the new credentials and every other urn reads as before. */
  lemma AccountRoundTrip(root: seq<Entry>, urn: string, username: string, password: string, other: string)
    requires UniqueIds(root, AccountKind)
    requires other != urn
    ensures AccountOf(AccountRoot(root, urn, username, password), urn) == Some((username, password))
    ensures AccountOf(AccountRoot(root, urn, username, password), other) == AccountOf(root, other)
    ensures UniqueIds(AccountRoot(root, urn, username, password), AccountKind)
  {
    var i := FirstMatch(root, AccountKind, urn);
    var removed := RemoveAt(root, i);
    var e := AccountInfo(urn, username, password);
    RemovedHasNoOther(root, AccountKind, urn);
    AppendUnique(removed, AccountKind, e);
    FirstMatchLast(removed, AccountKind, e);
    FirstMatchElsewhere(root, i, AccountKind, urn, other, e);
  }

  /** Removing and appending entries with one id leaves the first entry with another id where it reads the same. */
  lemma FirstMatchElsewhere(root: seq<Entry>, i: int, kind: Kind, id: string, other: string, e: Entry)
    requires -1 <= i < |root| && (i >= 0 ==> root[i].id == id) && e.id == id && other != id
    ensures var s := RemoveAt(root, i) + [e];
      var j, j' := FirstMatch(root, kind, other), FirstMatch(s, kind, other);
      (j < 0 <==> j' < 0) && (j >= 0 ==> s[j'] == root[j])
  {
    var removed := RemoveAt(root, i);
    var s := removed + [e];
    var j := FirstMatch(root, kind, other);
    var t := if j < 0 then |s| else if i < 0 || j < i then j else j - 1;
    NoMatchBefore(root, i, kind, id, other, e, j);
    if j >= 0 {
      RemoveAtIndex(root, i, t);
      FirstMatchIs(s, kind, other, t);
    } else {
      FirstMatchIs(s, kind, other, |s|);
    }
  }

  /** Nothing before the first match of `other` matches it once the entry at `i` is moved to the end. */
  lemma NoMatchBefore(root: seq<Entry>, i: int, kind: Kind, id: string, other: string, e: Entry, j: int)
    requires -1 <= i < |root| && (i >= 0 ==> root[i].id == id) && e.id == id && other != id
    requires -1 <= j < |root| && forall k :: 0 <= k < |root| && (j < 0 || k < j) ==> !Matches(root[k], kind, other)
    ensures var s := RemoveAt(root, i) + [e];
            var t := if j < 0 then |s| else if i < 0 || j < i then j else j - 1;
            forall k :: 0 <= k < t && k < |s| ==> !Matches(s[k], kind, other)
  {
    var removed := RemoveAt(root, i);
    var s := removed + [e];
    var t := if j < 0 then |s| else if i < 0 || j < i then j else j - 1;
    forall k | 0 <= k < t && k < |s| ensures !Matches(s[k], kind, other) {
      if k < |removed| {
        RemoveAtIndex(root, i, k);
      }
    }
  }

  lemma RemoveAtIndex<T>(s: seq<T>, i: int, k: int)
    requires -1 <= i < |s| && 0 <= k < |RemoveAt(s, i)|
    ensures RemoveAt(s, i)[k] == s[if i < 0 || k < i then k else k + 1]
  {
  }

  /** The first match is the position before which nothing matches and at which, if inside, an entry matches. */
  lemma FirstMatchIs(root: seq<Entry>, kind: Kind, id: string, t: int)
    requires 0 <= t <= |root| && (t < |root| ==> Matches(root[t], kind, id))
    requires forall k :: 0 <= k < t ==> !Matches(root[k], kind, id)
    ensures FirstMatch(root, kind, id) == if t < |root| then t else -1
  {
  }

  /**
   * After `customize_recipe`, `get_customize_info` reads back what was
   * stored, provided the tags survive the comma join: at least one tag,
   * none containing a comma or surrounding whitespace.
   */
  lemma CustomizeRoundTrip(root: seq<Entry>, urn: string, val: RecipeCustomization)
    requires val.customTags != []
    requires forall k :: 0 <= k < |val.customTags| ==> ',' !in val.customTags[k] && Strip(val.customTags[k]) == val.customTags[k]
    ensures CustomizeInfoOf(CustomizedRoot(root, urn, val), urn) == Ok(val)
  {
    var after := CustomizedRoot(root, urn, val);
    var removed := RemoveMatches(root, CustomizationKind, urn);
    assert forall k :: 0 <= k < |removed| ==> removed[k] in removed;
    FirstMatchLast(removed, CustomizationKind, after[|after| - 1]);
    assert after == removed + [after[|after| - 1]];
    ParseIntToString(val.keepIssues);
    SplitJoin(val.customTags, ',');
    assert StripAll(val.customTags) == val.customTags;
  }

  /** Without a stored customisation the defaults are returned: title tag on, no tags, no issue limit. */
  lemma CustomizeDefaults(root: seq<Entry>, urn: string)
    requires forall k :: 0 <= k < |root| ==> !Matches(root[k], CustomizationKind, urn)
    ensures CustomizeInfoOf(root, urn) == Ok(RecipeCustomization(true, [], 0, "{}"))
  {
  }

  /**
   * `update_last_downloaded` touches only the first recipe with the id, and
   * only its download time. That time is snapped to one interval after the
   * previous download exactly when the recipe is an interval recipe and now
   * is within an hour of that; otherwise it is now. Either way it is less
   * than an hour from now.
   */
  lemma UpdateSnapsWithinHour(root: seq<Entry>, id: string, now: int)
    requires UpdatedRoot(root, id, now).Ok?
    requires FirstMatch(root, RecipeKind, id) >= 0
    ensures var i := FirstMatch(root, RecipeKind, id);
      var after := UpdatedRoot(root, id, now).value;
      var t := after[i].lastDownloaded.value;
      var u := UnSerialize(root[i].schedule, root[i].lastDownloaded).value;
      var snap := u.0 == "interval" && u.1.IntervalSch? && -Hour < now - u.2 - u.1.seconds < Hour;
      && |after| == |root|
      && (forall j :: 0 <= j < |root| && j != i ==> after[j] == root[j])
      && after[i] == root[i].(lastDownloaded := Some(t))
      && (snap ==> t == u.2 + u.1.seconds)
      && (!snap ==> t == now)
      && -Hour < t - now < Hour
  {
  }

  // ---------------------------------------------------------------- migration of the old format

  /** An old-format recipe record. `schedule` is a number of days, or a day/time code above 100000. */
  datatype OldRecipe = OldRecipe(builtin: bool, id: string, title: string, schedule: int, lastDownloaded: Option<int>)

  datatype OldUrn = Urn(urn: string) | Skip | NoUrn

  /** The urn `add_old_recipe` derives; `Skip` when a custom id is not a number, `NoUrn` for a built-in without the `recipe_` prefix. */
  function OldRecipeUrn(builtin: bool, id: string): OldUrn {
    if builtin && StartsWith(id, "recipe_") then Urn("builtin:" + id[7..])
    else if !builtin then
      match ParseInt(id)
      case None => Skip
      case Some(n) => Urn("custom:" + IntToString(n))
    else NoUrn
  }

  /** The schedule `add_old_recipe` derives from an old schedule number. */
  function DecodeOldSchedule(schedule: int): (r: (string, ScheduleArg))
    ensures r.0 == "day/time" ==> r.1.TimeArg? && -1 <= r.1.day <= 6 && -1 <= r.1.hour <= 98 && -1 <= r.1.minute <= 98
    ensures r.0 == "interval" ==> r.1.IntervalArg?
  {
    if schedule > 100000 then
      var raw := NatToString(schedule);
      assert |raw| >= 6 by { SixDigits(schedule); }
      var day := DigitsValue(raw[..1]) - 1;
      var hour := DigitsValue(raw[2..4]) - 1;
      var minute := DigitsValue(raw[|raw| - 2..]) - 1;
      TwoDigits(raw[2..4]);
      TwoDigits(raw[|raw| - 2..]);
      TwoDigits(['0'] + raw[..1]);
      assert DigitsValue(['0'] + raw[..1]) == DigitsValue(raw[..1]) by { LeadingZero(raw[..1]); }
      ("day/time", TimeArg(if day >= 7 then -1 else day, hour, minute))
    else ("interval", IntervalArg(schedule * 86400))
  }

  lemma TwoDigits(s: string)
    requires |s| == 2 && AllDigits(s)
    ensures DigitsValue(s) <= 99
  {
    var a := s[..1];
    assert a[..0] == [] && a[0] == s[0];
    assert DigitsValue(a) == s[0] as int - '0' as int;
  }

  lemma LeadingZero(s: string)
    requires |s| == 1 && AllDigits(s)
    ensures AllDigits(['0'] + s) && DigitsValue(['0'] + s) == DigitsValue(s)
  {
    var t := ['0'] + s;
    assert t[..1] == ['0'] && t[..1][..0] == [];
    assert s[..0] == [];
  }

  /** A number of at least 100000 is written with at least six digits. */
  lemma SixDigits(n: nat)
    requires n >= 100000
    ensures |NatToString(n)| >= 6
  {
    assert NatToString(n) == NatToString(n / 10) + [DigitChar(n % 10)];
    assert NatToString(n / 10) == NatToString(n / 100) + [DigitChar(n / 10 % 10)];
    assert NatToString(n / 100) == NatToString(n / 1000) + [DigitChar(n / 100 % 10)];
    assert NatToString(n / 1000) == NatToString(n / 10000) + [DigitChar(n / 1000 % 10)];
    assert NatToString(n / 10000) == NatToString(n / 100000) + [DigitChar(n / 10000 % 10)];
  }

  lemma TwoDigitValue(a: nat, b: nat)
    requires a < 10 && b < 10
    ensures DigitsValue([DigitChar(a), DigitChar(b)]) == 10 * a + b
  {
    var s := [DigitChar(a), DigitChar(b)];
    var first := [DigitChar(a)];
    assert s[..1] == first && first[..0] == [];
    assert DigitsValue(first) == a;
    assert DigitsValue(s) == DigitsValue(first) * 10 + b;
  }

  /**
   * A six-digit day/time code `D x HH MM` decodes to day `D - 1` (every
   * day when that is 7 or more), hour `HH - 1` and minute `MM - 1`; the
   * second digit is ignored.
   */
  lemma DecodeOldSixDigits(d: nat, x: nat, hh: nat, mm: nat)
    requires 1 <= d <= 9 && x <= 9 && hh <= 99 && mm <= 99
    requires d * 100000 + x * 10000 + hh * 100 + mm > 100000
    ensures DecodeOldSchedule(d * 100000 + x * 10000 + hh * 100 + mm)
            == ("day/time", TimeArg(if d - 1 >= 7 then -1 else d - 1, hh - 1, mm - 1))
  {
    var raw := NatToString(d * 100000 + x * 10000 + hh * 100 + mm);
    var h1, h0, m1, m0 := hh / 10, hh % 10, mm / 10, mm % 10;
    assert hh == 10 * h1 + h0 && mm == 10 * m1 + m0;
    var q1 := 10 * d + x;
    var q2 := 10 * q1 + h1;
    var q3 := 10 * q2 + h0;
    var q4 := 10 * q3 + m1;
    CodeDigits(d, x, h1, h0, m1, m0, q1, q2, q3, q4, d * 100000 + x * 10000 + hh * 100 + mm);
    TwoDigitValue(hh / 10, hh % 10);
    TwoDigitValue(mm / 10, mm % 10);
    assert hh == 10 * (hh / 10) + hh % 10 && mm == 10 * (mm / 10) + mm % 10;
    assert raw[2..4] == [DigitChar(hh / 10), DigitChar(hh % 10)];
    assert raw[|raw| - 2..] == [DigitChar(mm / 10), DigitChar(mm % 10)];
    var one := [DigitChar(d)];
    assert raw[..1] == one && one[..0] == [];
    assert DigitsValue(one) == d;
  }

  /** Six decimal digits, the first non-zero, are written back as themselves. */
  lemma CodeDigits(d: nat, x: nat, h1: nat, h0: nat, m1: nat, m0: nat, q1: nat, q2: nat, q3: nat, q4: nat, n: nat)
    requires 1 <= d <= 9 && x <= 9 && h1 <= 9 && h0 <= 9 && m1 <= 9 && m0 <= 9
    requires q1 == 10 * d + x && q2 == 10 * q1 + h1 && q3 == 10 * q2 + h0 && q4 == 10 * q3 + m1 && n == 10 * q4 + m0
    ensures NatToString(n) == [DigitChar(d), DigitChar(x), DigitChar(h1), DigitChar(h0), DigitChar(m1), DigitChar(m0)]
  {
    AppendDigit(d, x);
    AppendDigit(q1, h1);
    AppendDigit(q2, h0);
    AppendDigit(q3, m1);
    AppendDigit(q4, m0);
  }

  /** Writing `10 * q + r` appends the digit `r` to the writing of `q`. */
  lemma AppendDigit(q: nat, r: nat)
    requires q >= 1 && r < 10
    ensures NatToString(10 * q + r) == NatToString(q) + [DigitChar(r)]
  {
    assert (10 * q + r) / 10 == q && (10 * q + r) % 10 == r;
  }

  /** The effect of `add_old_recipe` on the root: the migrated recipe is scheduled, or nothing happens. */
  function OldRecipeRoot(root: seq<Entry>, r: OldRecipe): seq<Entry> {
    match OldRecipeUrn(r.builtin, r.id)
    case Urn(urn) =>
      var (typ, sch) := DecodeOldSchedule(r.schedule);
      ScheduledRoot(root, urn, r.title, typ, sch, r.lastDownloaded)
    case _ => root
  }

  /** A migrated recipe is always scheduled under a urn of the form `builtin:<name>` or `custom:<number>`. */
  lemma OldRecipeScheduled(root: seq<Entry>, r: OldRecipe)
    requires OldRecipeUrn(r.builtin, r.id).Urn?
    ensures var after := OldRecipeRoot(root, r);
      var urn := OldRecipeUrn(r.builtin, r.id).urn;
      && after != [] && after[|after| - 1].ScheduledRecipe? && after[|after| - 1].id == urn
      && (StartsWith(urn, "builtin:") || StartsWith(urn, "custom:"))
  {
    var (typ, sch) := DecodeOldSchedule(r.schedule);
    assert SerializeSchedule(typ, sch).Ok?;
  }

  method AddOldRecipe(config: SchedulerConfig, r: OldRecipe) returns (res: Result<(), Failure>)
    modifies config
    ensures config.root == OldRecipeRoot(old(config.root), r)
    ensures res.Err? <==> OldRecipeUrn(r.builtin, r.id).NoUrn?
    ensures OldRecipeUrn(r.builtin, r.id).NoUrn? ==> res == Err(KeyError)
  {
    var urn := OldRecipeUrn(r.builtin, r.id);
    match urn
    case Skip =>
      return Ok(());
    case NoUrn =>
      // the element builder looks the attribute value's type up in its type
      // map, which has no entry for None
      return Err(KeyError);
    case Urn(u) =>
      var (typ, sch) := DecodeOldSchedule(r.schedule);
      res := config.ScheduleRecipe(u, r.title, typ, sch, r.lastDownloaded);
  }
}
