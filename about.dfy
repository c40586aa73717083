/**
 * The `about` command: a one-sentence profile of a wiki account (its
 * groups, gender, age, edit count and last edit), built from the wiki's
 * user query. The query's answer and the elapsed times are inputs.
 */
module About {
  import opened Wrappers
  import opened Strings
  import opened Messages
  import opened JsValues

  // ---------------------------------------------------------------------
  // Language entries
  // ---------------------------------------------------------------------

  /** A unit's name, singular and plural (`lang.success.time.<unit>`). */
  datatype UnitText = UnitText(singular: string, plural: string)

  /** `lang.success.time`. */
  datatype TimeTexts = TimeTexts(
    second: UnitText, minute: UnitText, hour: UnitText, day: UnitText,
    week: UnitText, month: UnitText, year: UnitText)

  /** `lang.success.fragments`; `fallback` is the entry named `default`. */
  datatype Fragments = Fragments(
    unknownName: string, unknownGender: string, blocked: string, autoconfirmed: string,
    fallback: string, registration: string, edits: string, lastEdit: string)

  /** `lang.success.delimiters`. */
  datatype Delimiters = Delimiters(separator: string, conjunction: string, terminator: string, thousands: string)

  /** The command's language entries the profile is written with. */
  datatype AboutLang = AboutLang(time: TimeTexts, fragments: Fragments, delimiters: Delimiters)

  // ---------------------------------------------------------------------
  // formatDate
  // ---------------------------------------------------------------------

  /** The number of `c` characters in a row from index `i`. */
  function RunLength(s: string, c: char, i: nat): (n: nat)
    requires i <= |s|
    ensures i + n <= |s|
    ensures forall j :: i <= j < i + n ==> s[j] == c
    ensures i + n < |s| ==> s[i + n] != c
    decreases |s| - i
  {
    if i < |s| && s[i] == c then 1 + RunLength(s, c, i + 1) else 0
  }

  /**
   * `s.replace(new RegExp("\d{1,3}(?=(\d{3})+(?!\d))", "g"), "$&" + sep)`
   * from index `i` on. In a string literal `"\d"` is the letter `d`, so the
   * pattern matches runs of the letter `d`: at a run of length `n > 3` it
   * takes one to three letters, so that a whole number of triples is left
   * before the run ends, and puts `sep` after them.
   */
  function GroupAsWritten(s: string, sep: string, i: nat): (r: string)
    requires i <= |s|
    ensures sep == "" ==> r == s[i..]
    decreases |s| - i
  {
    if i == |s| then []
    else
      var n := RunLength(s, 'd', i);
      var m := (n + 2) % 3 + 1;
      if n > 3 then
        ExpandMatchThen(sep, s[i..i + m], s[..i], s[i + m..]);
        assert sep == "" ==> s[i..] == s[i..i + m] + s[i + m..];
        Expand("$&" + sep, s[i..i + m], s[..i], s[i + m..]) + GroupAsWritten(s, sep, i + m)
      else
        assert s[i..] == [s[i]] + s[i + 1..];
        [s[i]] + GroupAsWritten(s, sep, i + 1)
  }

  /** Where no letter `d` occurs, the replacement changes nothing. */
  lemma {:induction false} GroupAsWrittenNoD(s: string, sep: string, i: nat)
    requires i <= |s|
    requires forall j :: i <= j < |s| ==> s[j] != 'd'
    ensures GroupAsWritten(s, sep, i) == s[i..]
    decreases |s| - i
  {
    if i < |s| {
      GroupAsWrittenNoD(s, sep, i + 1);
      assert s[i..] == [s[i]] + s[i + 1..];
    }
  }

  /** `String(n)` holds digits and at most a minus sign, never the letter `d`. */
  lemma IntToStringHasNoD(n: int)
    ensures forall j :: 0 <= j < |IntToString(n)| ==> IntToString(n)[j] != 'd'
  {
    var digits := NatToString(if n < 0 then -n else n);
    NatToStringDigits(if n < 0 then -n else n);
    assert forall j :: 0 <= j < |digits| ==> digits[j] != 'd';
    if n < 0 {
      assert IntToString(n) == "-" + digits;
    }
  }

  /**
   * `formatDate`: the number, a no-break space and the unit, singular only
   * for exactly 1. The thousands separator is never inserted, because the
   * pattern cannot match a number's text.
   */
  function FormatDate(time: int, unit: UnitText, thousands: string): (r: string)
    ensures r == IntToString(time) + [NoBreakSpace] + (if time == 1 then unit.singular else unit.plural)
  {
    var text := if time == 1 then unit.singular else unit.plural;
    IntToStringHasNoD(time);
    GroupAsWrittenNoD(IntToString(time), thousands, 0);
    GroupAsWritten(IntToString(time), thousands, 0) + [NoBreakSpace] + text
  }

  // ---------------------------------------------------------------------
  // timeago
  // ---------------------------------------------------------------------

  datatype Unit = Second | Minute | Hour | Day | Week | Month | Year

  /** The length of a unit in milliseconds, as `timeago` defines them (a month is 30 days, a year 365). */
  function Ms(u: Unit): int {
    match u
    case Second => 1000
    case Minute => 60000
    case Hour => 3600000
    case Day => 86400000
    case Week => 604800000
    case Month => 2592000000
    case Year => 31536000000
  }

  /**
   * A fuzzy duration: `number` whole `unit`s, and for hours and years
   * `rest` whole minutes or months beyond them (0 elsewhere).
   */
  datatype Fuzzy = Fuzzy(unit: Unit, number: int, rest: int)

  /** The unit below which `rest` counts: minutes under hours, months under years. */
  function Minor(u: Unit): Unit {
    if u == Year then Month else Minute
  }

  /** The unit `timeago` picks for `elapsed`: the largest one whose threshold `elapsed` reaches. */
  predicate InBucket(u: Unit, elapsed: int) {
    match u
    case Second => elapsed < Ms(Minute)
    case Minute => Ms(Minute) <= elapsed < Ms(Hour)
    case Hour => Ms(Hour) <= elapsed < Ms(Day)
    case Day => Ms(Day) <= elapsed < Ms(Week)
    case Week => Ms(Week) <= elapsed < Ms(Month)
    case Month => Ms(Month) <= elapsed < Ms(Year)
    case Year => Ms(Year) <= elapsed
  }

  /** Floor division by a positive number, as `Math.floor(a / b)` computes it. */
  lemma FloorBounds(a: int, b: int)
    requires b > 0
    ensures b * (a / b) <= a < b * (a / b + 1)
  {
  }

  /** The first bucket, from the smallest, whose upper threshold `elapsed` stays below. */
  function UnitFor(elapsed: int): (u: Unit)
    ensures InBucket(u, elapsed)
  {
    if elapsed < 60000 then Second
    else if elapsed < 3600000 then Minute
    else if elapsed < 86400000 then Hour
    else if elapsed < 604800000 then Day
    else if elapsed < 2592000000 then Week
    else if elapsed < 31536000000 then Month
    else Year
  }

  /**
   * `timeago`'s arithmetic on the milliseconds elapsed: the bucket, the
   * whole number of units by floor division, and for hours and years the
   * whole minutes or months left over. What the numbers mean is
   * `BucketFloor`.
   */
  function Bucket(elapsed: int): (f: Fuzzy)
    ensures InBucket(f.unit, elapsed)
    ensures f.unit !in {Hour, Year} ==> f.rest == 0
  {
    var u := UnitFor(elapsed);
    var number := elapsed / Ms(u);
    var rest := if u in {Hour, Year} then (elapsed - number * Ms(u)) / Ms(Minor(u)) else 0;
    Fuzzy(u, number, rest)
  }

  /**
   * The number is the whole units in `elapsed`, rounded down, and for
   * hours and years the rest is the whole minor units in what is left.
   */
  lemma BucketFloor(elapsed: int)
    ensures var f := Bucket(elapsed);
      && Ms(f.unit) * f.number <= elapsed < Ms(f.unit) * (f.number + 1)
      && (f.unit in {Hour, Year} ==>
            && Ms(f.unit) * f.number + Ms(Minor(f.unit)) * f.rest <= elapsed
            && elapsed < Ms(f.unit) * f.number + Ms(Minor(f.unit)) * (f.rest + 1))
  {
    var f := Bucket(elapsed);
    FloorBounds(elapsed, Ms(f.unit));
    if f.unit in {Hour, Year} {
      FloorBounds(elapsed - f.number * Ms(f.unit), Ms(Minor(f.unit)));
    }
  }

  /**
   * The numbers `timeago` can show: seconds 0 to 59 (for a time not in
   * the future), minutes 1 to 59, hours 1 to 23 and 0 to 59 minutes more,
   * days 1 to 6, weeks 1 to 4, months 1 to 12, and years with 0 to 12
   * months more.
   */
  lemma BucketRanges(elapsed: int)
    ensures var f := Bucket(elapsed);
      && (f.unit == Second && elapsed >= 0 ==> 0 <= f.number < 60)
      && (f.unit == Minute ==> 1 <= f.number < 60)
      && (f.unit == Hour ==> 1 <= f.number < 24 && 0 <= f.rest < 60)
      && (f.unit == Day ==> 1 <= f.number < 7)
      && (f.unit == Week ==> 1 <= f.number < 5)
      && (f.unit == Month ==> 1 <= f.number <= 12)
      && (f.unit == Year ==> 1 <= f.number && 0 <= f.rest <= 12)
  {
    var f := Bucket(elapsed);
    BucketFloor(elapsed);
    match f.unit
    case Second =>
    case Minute =>
    case Hour =>
    case Day =>
    case Week =>
    case Month =>
    case Year =>
  }

  /** A year and 360 days reads "1 year 12 months": 365-day years hold twelve 30-day months and 5 days more. */
  lemma TwelveMonthsRemain()
    ensures Bucket(31536000000 + 360 * 86400000) == Fuzzy(Year, 1, 12)
  {
  }

  /** The text of a unit. */
  function UnitName(t: TimeTexts, u: Unit): UnitText {
    match u
    case Second => t.second
    case Minute => t.minute
    case Hour => t.hour
    case Day => t.day
    case Week => t.week
    case Month => t.month
    case Year => t.year
  }

  /** `timeago`: the number of units, then the remainder when it is not 0. */
  function TimeAgo(elapsed: int, t: TimeTexts, thousands: string): (r: string)
    ensures StartsWith(r, FormatDate(Bucket(elapsed).number, UnitName(t, Bucket(elapsed).unit), thousands))
    ensures Bucket(elapsed).rest == 0 <==> r == FormatDate(Bucket(elapsed).number, UnitName(t, Bucket(elapsed).unit), thousands)
  {
    var f := Bucket(elapsed);
    FormatDate(f.number, UnitName(t, f.unit), thousands)
    + if f.rest != 0 then [NoBreakSpace] + FormatDate(f.rest, UnitName(t, Minor(f.unit)), thousands) else ""
  }

  /**
   * Between one hour and one day: the whole hours, then the whole minutes
   * beyond them when there are any; the seconds are dropped.
   */
  lemma TimeAgoHours(hours: int, minutes: int, ms: int, t: TimeTexts, thousands: string)
    requires 1 <= hours < 24 && 0 <= minutes < 60 && 0 <= ms < 60000
    ensures TimeAgo(hours * 3600000 + minutes * 60000 + ms, t, thousands) ==
      FormatDate(hours, t.hour, thousands)
      + if minutes != 0 then [NoBreakSpace] + FormatDate(minutes, t.minute, thousands) else ""
  {
    var elapsed := hours * 3600000 + minutes * 60000 + ms;
    assert UnitFor(elapsed) == Hour;
    assert elapsed / 3600000 == hours;
    assert (elapsed - hours * 3600000) / 60000 == minutes;
    assert Bucket(elapsed) == Fuzzy(Hour, hours, minutes);
  }

  /** With a remainder, the fuzzy date is the main part, a no-break space, and the remainder in the next smaller unit. */
  lemma TimeAgoRest(elapsed: int, t: TimeTexts, thousands: string)
    requires Bucket(elapsed).rest != 0
    ensures TimeAgo(elapsed, t, thousands) ==
      FormatDate(Bucket(elapsed).number, UnitName(t, Bucket(elapsed).unit), thousands)
      + [NoBreakSpace] + FormatDate(Bucket(elapsed).rest, UnitName(t, Minor(Bucket(elapsed).unit)), thousands)
  {
  }

  /**
   * From one year on: the whole years, then the whole 30-day months
   * beyond them when there are any; the rest is dropped.
   */
  lemma TimeAgoYears(years: int, months: int, ms: int, t: TimeTexts, thousands: string)
    requires years >= 1 && 0 <= months && 0 <= ms < 2592000000
    requires months * 2592000000 + ms < 31536000000
    ensures TimeAgo(years * 31536000000 + months * 2592000000 + ms, t, thousands) ==
      FormatDate(years, t.year, thousands)
      + if months != 0 then [NoBreakSpace] + FormatDate(months, t.month, thousands) else ""
  {
    var elapsed := years * 31536000000 + months * 2592000000 + ms;
    var extra := months * 2592000000 + ms;
    DivOfSum(years, extra, 31536000000);
    DivOfSum(months, ms, 2592000000);
    assert Bucket(elapsed) == Fuzzy(Year, years, months);
  }

  /** Dividing `q * d + r` by `d` gives back `q` when `r` is a remainder. */
  lemma DivOfSum(q: int, r: int, d: int)
    requires d > 0 && 0 <= r < d
    ensures (q * d + r) / d == q
  {
    var k := (q * d + r) / d;
    FloorBounds(q * d + r, d);
    if k < q {
      MulMonotone(d, k + 1, q);
      assert false;
    } else if k > q {
      MulMonotone(d, q + 1, k);
      assert false;
    }
  }

  /** Multiplying by a positive number keeps the order. */
  lemma MulMonotone(d: int, a: int, b: int)
    requires d > 0 && a <= b
    ensures d * a <= d * b
  {
  }

  // ---------------------------------------------------------------------
  // Groups and the list of them
  // ---------------------------------------------------------------------

  /** A group is shown when it is not `*`, `user` or `autoconfirmed` and the configuration labels it. */
  predicate Shown(group: string, labels: map<string, string>) {
    group != "*" && group != "user" && group != "autoconfirmed" && group in labels
  }

  /** The labels of the shown groups, in the order the wiki lists the groups. */
  function Displayed(usergroups: seq<string>, labels: map<string, string>): (r: seq<string>)
    ensures |r| <= |usergroups|
    ensures forall x :: x in r <==> exists g :: g in usergroups && Shown(g, labels) && labels[g] == x
  {
    if usergroups == [] then []
    else
      var front := usergroups[..|usergroups| - 1];
      var g := usergroups[|usergroups| - 1];
      assert forall h :: h in usergroups <==> h in front || h == g;
      Displayed(front, labels) + (if Shown(g, labels) then [labels[g]] else [])
  }

  /** Filtering keeps order: the labels of two lists one after the other are those of their concatenation. */
  lemma {:induction false} DisplayedAppend(a: seq<string>, b: seq<string>, labels: map<string, string>)
    ensures Displayed(a + b, labels) == Displayed(a, labels) + Displayed(b, labels)
    decreases |b|
  {
    if b == [] {
      assert a + b == a;
    } else {
      var front := b[..|b| - 1];
      DisplayedAppend(a, front, labels);
      assert (a + b)[..|a + b| - 1] == a + front;
      assert (a + b)[|a + b| - 1] == b[|b| - 1];
    }
  }

  /**
   * The groups as an English list: none gives `fallback`, one itself, two
   * `"a <conj> b"`, more `"a<sep> b<sep> <conj> c"`.
   */
  function ListText(groups: seq<string>, d: Delimiters, fallback: string): (r: string)
    ensures |groups| == 0 ==> r == fallback
    ensures |groups| == 1 ==> r == groups[0]
    ensures |groups| == 2 ==> r == groups[0] + " " + d.conjunction + " " + groups[1]
    ensures |groups| >= 3 ==>
      r == Join(groups[..|groups| - 1] + [d.conjunction + " " + groups[|groups| - 1]], d.separator + " ")
  {
    var n := |groups|;
    if n == 0 then fallback
    else if n == 1 then groups[0]
    else if n == 2 then groups[0] + " " + d.conjunction + " " + groups[1]
    else
      JoinSnoc(groups[..n - 1], d.conjunction + " " + groups[n - 1], d.separator + " ");
      Join(groups[..n - 1], d.separator + " ") + d.separator + " " + d.conjunction + " " + groups[n - 1]
  }

  // ---------------------------------------------------------------------
  // The profile
  // ---------------------------------------------------------------------

  /**
   * `query.users[0]` of the wiki's user query, as the command reads it:
   * `name` and `gender` when they are strings, `groups` when it is an array,
   * `editcount` when it is a number, `userid`, which of `invalid`,
   * `missing` and `blockedby` it has, and the milliseconds elapsed since
   * `registration` when it has one.
   */
  datatype AboutUser = AboutUser(
    name: Option<string>,
    gender: Option<string>,
    groups: Option<seq<string>>,
    editcount: Option<int>,
    userid: Option<int>,
    invalid: bool,
    missing: bool,
    blocked: bool,
    registered: Option<int>)

  /**
   * `query`: its `users`, and the milliseconds elapsed since
   * `usercontribs[0].timestamp` when there is such an entry.
   */
  datatype AboutQuery = AboutQuery(users: seq<AboutUser>, lastEdit: Option<int>)

  /** The answer to the user query: it threw, or it came back with a truthy `error` or not, and with `query` or not. */
  datatype AboutData = AboutThrew | AboutData(error: bool, query: Option<AboutQuery>)

  /** The user's name, or the fallback for a name that is not a string. */
  function Username(user: AboutUser, f: Fragments): string {
    user.name.GetOr(f.unknownName)
  }

  /** The gender, or the fallback when it is missing or `"unknown"`. */
  function Gender(user: AboutUser, f: Fragments): string {
    if user.gender.Some? && user.gender.value != "unknown" then user.gender.value else f.unknownGender
  }

  /** The list of groups, with the blocked or else the autoconfirmed fragment first. */
  function Groups(user: AboutUser, labels: map<string, string>, f: Fragments): (r: seq<string>)
    ensures user.blocked ==> |r| >= 1 && r[0] == JsReplace(f.blocked, "$1", Username(user, f))
    ensures !user.blocked && "autoconfirmed" in user.groups.GetOr([]) ==>
      |r| >= 1 && r[0] == JsReplace(f.autoconfirmed, "$1", Username(user, f))
    ensures |r| == |Displayed(user.groups.GetOr([]), labels)| +
      if user.blocked || "autoconfirmed" in user.groups.GetOr([]) then 1 else 0
    ensures r[|r| - |Displayed(user.groups.GetOr([]), labels)|..] == Displayed(user.groups.GetOr([]), labels)
  {
    var usergroups := user.groups.GetOr([]);
    var shown := Displayed(usergroups, labels);
    if user.blocked then [JsReplace(f.blocked, "$1", Username(user, f))] + shown
    else if "autoconfirmed" in usergroups then [JsReplace(f.autoconfirmed, "$1", Username(user, f))] + shown
    else shown
  }

  /** `[text]` when `present`, otherwise nothing: an optional `push`. */
  function Optional(present: bool, text: string): (r: seq<string>)
    ensures |r| == if present then 1 else 0
    ensures present ==> r == [text]
  {
    if present then [text] else []
  }

  /**
   * The segments of the sentence: the group list and the gender, then the
   * registration age, the edit count when it is not 0, and the age of the
   * last edit, each only when known.
   */
  function Segments(user: AboutUser, lastEdit: Option<int>, labels: map<string, string>, lang: AboutLang): (r: seq<string>)
    ensures |r| == 2 + (if user.registered.Some? then 1 else 0)
                     + (if user.editcount.Some? && user.editcount.value != 0 then 1 else 0)
                     + (if lastEdit.Some? then 1 else 0)
    ensures r[0] == ListText(Groups(user, labels, lang.fragments), lang.delimiters,
                             JsReplace(lang.fragments.fallback, "$1", Username(user, lang.fragments)))
    ensures r[1] == Gender(user, lang.fragments)
    ensures r[2..] == OptionalSegments(user, lastEdit, lang)
    ensures lastEdit.Some? ==> r[|r| - 1] == LastEditText(lastEdit.value, lang)
  {
    var f := lang.fragments;
    var list := ListText(Groups(user, labels, f), lang.delimiters, JsReplace(f.fallback, "$1", Username(user, f)));
    [list, Gender(user, f)] + OptionalSegments(user, lastEdit, lang)
  }

  /** The segments after the gender, each present only when its value is known. */
  function OptionalSegments(user: AboutUser, lastEdit: Option<int>, lang: AboutLang): (r: seq<string>)
    ensures |r| == (if user.registered.Some? then 1 else 0)
                   + (if user.editcount.Some? && user.editcount.value != 0 then 1 else 0)
                   + (if lastEdit.Some? then 1 else 0)
    ensures user.registered.Some? ==> r[0] == RegistrationText(user.registered.value, lang)
    ensures user.editcount.Some? && user.editcount.value != 0 ==>
      r[if user.registered.Some? then 1 else 0] == EditsText(user.editcount.value, lang)
    ensures lastEdit.Some? ==> r[|r| - 1] == LastEditText(lastEdit.value, lang)
  {
    var registration := Optional(user.registered.Some?, RegistrationText(user.registered.GetOr(0), lang));
    var edits := Optional(user.editcount.Some? && user.editcount.value != 0, EditsText(user.editcount.GetOr(0), lang));
    var last := Optional(lastEdit.Some?, LastEditText(lastEdit.GetOr(0), lang));
    var r := registration + edits + last;
    assert r[..|registration|] == registration;
    assert r[|registration|..|registration| + |edits|] == edits;
    assert r[|r| - |last|..] == last;
    r
  }

  /** An edit count of 0 is left out exactly as a missing one is. */
  lemma EditCountZeroOmitted(user: AboutUser, lastEdit: Option<int>, lang: AboutLang)
    requires user.editcount == Some(0)
    ensures OptionalSegments(user, lastEdit, lang) == OptionalSegments(user.(editcount := None), lastEdit, lang)
  {
  }

  /** The registration fragment with the account's age. */
  function RegistrationText(elapsed: int, lang: AboutLang): string {
    JsReplace(lang.fragments.registration, "$1", TimeAgo(elapsed, lang.time, lang.delimiters.thousands))
  }

  /** The edit-count fragment. */
  function EditsText(editcount: int, lang: AboutLang): string {
    JsReplace(lang.fragments.edits, "$1", IntToString(editcount))
  }

  /** The last-edit fragment with the time since the last edit. */
  function LastEditText(elapsed: int, lang: AboutLang): string {
    JsReplace(lang.fragments.lastEdit, "$1", TimeAgo(elapsed, lang.time, lang.delimiters.thousands))
  }

  /**
   * The sentence: segments joined by the separator and a space, closed by
   * the terminator; when there is a last edit it stands as a sentence of
   * its own.
   */
  function Output(segments: seq<string>, hasLastEdit: bool, d: Delimiters): (r: string)
    requires |segments| >= 1
    ensures EndsWith(r, segments[|segments| - 1] + d.terminator)
    ensures hasLastEdit ==>
      r == Join(segments[..|segments| - 1], d.separator + " ") + d.terminator + " " + segments[|segments| - 1] + d.terminator
    ensures !hasLastEdit && |segments| >= 2 ==>
      r == Join(segments[..|segments| - 1], d.separator + " ") + d.separator + " " + segments[|segments| - 1] + d.terminator
    ensures !hasLastEdit && |segments| == 1 ==> r == segments[0] + d.terminator
  {
    var n := |segments|;
    var front := Join(segments[..n - 1], d.separator + " ");
    var tail := segments[n - 1] + d.terminator;
    if hasLastEdit then
      var r := front + d.terminator + " " + segments[n - 1] + d.terminator;
      assert r == (front + d.terminator + " ") + tail;
      r
    else
      if n >= 2 then
        JoinSnoc(segments[..n - 1], segments[n - 1], d.separator + " ");
        assert segments[..n - 1] + [segments[n - 1]] == segments;
        var r := Join(segments, d.separator + " ") + d.terminator;
        assert r == (front + d.separator + " ") + tail;
        r
      else
        Join(segments, d.separator + " ") + d.terminator
  }

  /** The reply of a successful lookup, which does not expire. */
  function Profile(user: AboutUser, lastEdit: Option<int>, labels: map<string, string>, lang: AboutLang): (r: Action)
    ensures r.Reply? && !r.deleteMessages && r.text.Literal?
    ensures lastEdit.Some? ==> EndsWith(r.text.s, LastEditText(lastEdit.value, lang) + lang.delimiters.terminator)
    ensures lastEdit.None? && user.registered.None? && (user.editcount.None? || user.editcount == Some(0)) ==>
      EndsWith(r.text.s, Gender(user, lang.fragments) + lang.delimiters.terminator)
  {
    Reply(Literal(Output(Segments(user, lastEdit, labels, lang), lastEdit.Some?, lang.delimiters)), false)
  }

  /** The user exists: a truthy `userid` and neither `invalid` nor `missing`. */
  predicate Exists(user: AboutUser) {
    user.userid.Some? && user.userid.value != 0 && !user.invalid && !user.missing
  }

  /**
   * The lookup rejects a user whose `userid` is falsy or who is flagged
   * invalid or missing; `Exists` is that test with `userid` read as a
   * JavaScript value (`undefined` when absent).
   */
  lemma ExistsAsWritten(user: AboutUser)
    ensures Exists(user) <==>
      Truthy(if user.userid.Some? then Num(user.userid.value) else Undefined) && !user.invalid && !user.missing
  {
  }

  /**
   * `About#execute` as intended: no username gives `username`; a thrown
   * query rejects; a missing `query` or an `error` gives `server`; no
   * user, or one who does not exist, gives `nonexistent`; otherwise the
   * profile.
   */
  function Actions(args: seq<string>, data: AboutData, labels: map<string, string>, lang: AboutLang): (r: seq<Action>)
    ensures |r| == 1 && (r[0].Reply? || r == [Threw])
    ensures args == [] ==> r == [ExpiringReply(["error", "username"])]
    ensures args != [] && data.AboutThrew? ==> r == [Threw]
    ensures args != [] && data.AboutData? && (data.error || data.query.None?) ==> r == [ExpiringReply(["error", "server"])]
    ensures args != [] && data.AboutData? && !data.error && data.query.Some? ==>
      var users := data.query.value.users;
      if users == [] || !Exists(users[0]) then r == [ExpiringReply(["error", "nonexistent"])]
      else r == [Profile(users[0], data.query.value.lastEdit, labels, lang)]
    ensures r[0].Reply? && !r[0].deleteMessages <==>
      args != [] && data.AboutData? && !data.error && data.query.Some?
      && data.query.value.users != [] && Exists(data.query.value.users[0])
  {
    if args == [] then [ExpiringReply(["error", "username"])]
    else
      match data
      case AboutThrew => [Threw]
      case AboutData(error, query) =>
        if query.None? || error then [ExpiringReply(["error", "server"])]
        else if query.value.users == [] || !Exists(query.value.users[0]) then [ExpiringReply(["error", "nonexistent"])]
        else [Profile(query.value.users[0], query.value.lastEdit, labels, lang)]
  }

  /**
   * `About#execute` as written: with `query` missing and no `error`, the
   * log line reads `data.error.code` and throws; with no `users[0]`,
   * reading `user.groups` throws before the `!user` guard is reached.
   */
  function ActionsAsWritten(args: seq<string>, data: AboutData, labels: map<string, string>, lang: AboutLang): (r: seq<Action>)
    ensures |r| == 1 && (r[0].Reply? || r == [Threw])
    ensures r != Actions(args, data, labels, lang) ==> r == [Threw]
  {
    if args == [] then [ExpiringReply(["error", "username"])]
    else
      match data
      case AboutThrew => [Threw]
      case AboutData(error, query) =>
        if query.None? || error then
          if !error then [Threw] else [ExpiringReply(["error", "server"])]
        else if query.value.users == [] then [Threw]
        else if !Exists(query.value.users[0]) then [ExpiringReply(["error", "nonexistent"])]
        else [Profile(query.value.users[0], query.value.lastEdit, labels, lang)]
  }

  /** The two inputs on which the code as written throws instead of replying. */
  lemma AsWrittenThrows(args: seq<string>, lastEdit: Option<int>, labels: map<string, string>, lang: AboutLang)
    requires args != []
    ensures ActionsAsWritten(args, AboutData(false, None), labels, lang) == [Threw]
    ensures Actions(args, AboutData(false, None), labels, lang) == [ExpiringReply(["error", "server"])]
    ensures ActionsAsWritten(args, AboutData(false, Some(AboutQuery([], lastEdit))), labels, lang) == [Threw]
    ensures Actions(args, AboutData(false, Some(AboutQuery([], lastEdit))), labels, lang) == [ExpiringReply(["error", "nonexistent"])]
  {
  }

  /** On every other input the code as written does what was intended. */
  lemma AsWrittenAgrees(args: seq<string>, data: AboutData, labels: map<string, string>, lang: AboutLang)
    requires data.AboutData? && !data.error ==> data.query.Some? && data.query.value.users != []
    ensures ActionsAsWritten(args, data, labels, lang) == Actions(args, data, labels, lang)
  {
  }
}
