/**
 * app/my-schedule.tsx: the signed-in officer's own shifts. The screen filters the cached shifts
 * to those listing the user, lists the ones on a chosen date by the store's date rule, and
 * groups them into "Today", "Tomorrow" and "Upcoming" relative to the current instant, which
 * is a parameter here. The user is optional (no one signed in).
 */
module MySchedule {
  import opened Wrappers
  import opened Seqs
  import opened DateUtils
  import opened ScheduleTypes
  import opened ScheduleStore

  /** `myShifts`: the cached shifts listing the user, in cache order; none without a user. */
  function MyShifts(shifts: seq<Shift>, user: Option<Id>): (r: seq<Shift>)
    ensures user.None? ==> r == []
    ensures user.Some? ==> forall s :: s in r <==> s in shifts && user.value in s.officers
    ensures IsSubseq(r, shifts)
  {
    match user
    case None => []
    case Some(u) => ShiftsByOfficer(shifts, u)
  }

  /** The screen's own `getShiftsByDate`: the store's date rule applied to `myShifts`. */
  function MyShiftsOnDate(shifts: seq<Shift>, user: Option<Id>, date: Instant): (r: seq<Shift>)
    ensures forall s :: s in r <==> s in MyShifts(shifts, user) && OccursOn(s, date)
  {
    ShiftsByDate(MyShifts(shifts, user), date)
  }

  function OnDateWith(date: Instant, u: Id): Shift -> bool {
    (s: Shift) => OccursOn(s, date) && u in s.officers
  }

  /** Restricting to the user and then to the date gives the store's date list restricted to the user. */
  lemma {:induction false} MyShiftsOnDateCommute(shifts: seq<Shift>, u: Id, date: Instant)
    ensures MyShiftsOnDate(shifts, Some(u), date) == MyShifts(ShiftsByDate(shifts, date), Some(u))
  {
    FilterFilter(OccursOnDate(date), HasOfficer(u), OnDateWith(date, u), shifts);
    FilterFilter(HasOfficer(u), OccursOnDate(date), OnDateWith(date, u), shifts);
  }

  function StartsOn(day: DateKey): Shift -> bool {
    (s: Shift) => DayOf(s.startTime) == day
  }

  function StartsAfter(t: Instant): Shift -> bool {
    (s: Shift) => s.startTime > t
  }

  function StartOf(s: Shift): int {
    s.startTime
  }

  /** Midnight at the start of the day after `now`. */
  function TomorrowMidnight(now: Instant): (t: Instant)
    ensures DayOf(t) == DayOf(now) + 1 && TimeOfDay(t) == 0
  {
    AddDays(StartOfDay(now), 1)
  }

  /** `todayShifts`: the shifts starting on the current day; recurrence plays no part. */
  function TodayShifts(mine: seq<Shift>, now: Instant): (r: seq<Shift>)
    ensures forall s :: s in r <==> s in mine && DayOf(s.startTime) == DayOf(now)
    ensures IsSubseq(r, mine)
  {
    FilterIsSubseq(StartsOn(DayOf(now)), mine);
    Filter(StartsOn(DayOf(now)), mine)
  }

  /** `tomorrowShifts`: the shifts starting on the next day. */
  function TomorrowShifts(mine: seq<Shift>, now: Instant): (r: seq<Shift>)
    ensures forall s :: s in r <==> s in mine && DayOf(s.startTime) == DayOf(now) + 1
    ensures IsSubseq(r, mine)
  {
    FilterIsSubseq(StartsOn(DayOf(now) + 1), mine);
    Filter(StartsOn(DayOf(now) + 1), mine)
  }

  /**
   * `upcomingShifts`: the shifts starting strictly after tomorrow's midnight, earliest first;
   * shifts with the same start keep their order in `myShifts` (`sort` is stable).
   */
  function UpcomingShifts(mine: seq<Shift>, now: Instant): (r: seq<Shift>)
    ensures forall s :: s in r <==> s in mine && s.startTime > TomorrowMidnight(now)
    ensures SortedBy(StartOf, r)
    ensures multiset(r) == multiset(Filter(StartsAfter(TomorrowMidnight(now)), mine))
    ensures forall t :: Filter(KeyIs(StartOf, t), r) == Filter(KeyIs(StartOf, t), Filter(StartsAfter(TomorrowMidnight(now)), mine))
  {
    var later := Filter(StartsAfter(TomorrowMidnight(now)), mine);
    SortByMembers(StartOf, later);
    assert forall t :: Filter(KeyIs(StartOf, t), SortBy(StartOf, later)) == Filter(KeyIs(StartOf, t), later) by {
      forall t ensures Filter(KeyIs(StartOf, t), SortBy(StartOf, later)) == Filter(KeyIs(StartOf, t), later) {
        SortByStable(StartOf, later, t);
      }
    }
    SortBy(StartOf, later)
  }

  datatype Section = Section(title: string, data: seq<Shift>)

  function NonEmpty(): Section -> bool {
    (sec: Section) => sec.data != []
  }

  /** The three candidate sections, in their fixed order. */
  function AllSections(mine: seq<Shift>, now: Instant): seq<Section> {
    [Section("Today", TodayShifts(mine, now)), Section("Tomorrow", TomorrowShifts(mine, now)),
     Section("Upcoming", UpcomingShifts(mine, now))]
  }

  /** `organizeShiftsBySection`: the non-empty sections among Today, Tomorrow, Upcoming, in that order. */
  function Sections(mine: seq<Shift>, now: Instant): (r: seq<Section>)
    ensures forall sec :: sec in r <==> sec in AllSections(mine, now) && sec.data != []
    ensures IsSubseq(r, AllSections(mine, now))
    ensures |r| <= 3
  {
    FilterIsSubseq(NonEmpty(), AllSections(mine, now));
    Filter(NonEmpty(), AllSections(mine, now))
  }

  /** A shift starting later than midnight tomorrow is listed both under Tomorrow and under Upcoming. */
  lemma TomorrowAlsoUpcoming(mine: seq<Shift>, now: Instant, s: Shift)
    requires s in mine && DayOf(s.startTime) == DayOf(now) + 1 && TimeOfDay(s.startTime) > 0
    ensures s in TomorrowShifts(mine, now) && s in UpcomingShifts(mine, now)
  {
    Decompose(s.startTime);
    Decompose(TomorrowMidnight(now));
  }

  /** A shift of today is never upcoming, and nothing is listed under both Today and Tomorrow. */
  lemma TodayIsNotLater(mine: seq<Shift>, now: Instant, s: Shift)
    ensures s in TodayShifts(mine, now) ==> s !in UpcomingShifts(mine, now) && s !in TomorrowShifts(mine, now)
  {
    Decompose(s.startTime);
    Decompose(TomorrowMidnight(now));
  }
}
