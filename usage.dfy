/**
 * The daily talk-time ledger of `src/lib/usage.ts`: milliseconds used per
 * calendar day, kept in browser storage under a dated key, a fifteen-minute
 * daily cap, and the session clock that feeds it.
 *
 * The clock (`Date.now()`, `new Date()`) is a parameter of every operation,
 * and the interval timer is an explicit `OnTick` call.  The stored text is
 * `String(n)` of an integer, which `Number` reads back as `n`
 * (`Text.ParseIntStr`), so the store maps keys to the numbers themselves.
 */
module Usage {
  import opened Wrappers
  import opened Text

  /** The daily cap: fifteen minutes in milliseconds. */
  const DailyLimitMs: int := 15 * 60 * 1000

  const Prefix: string := "anima-usage-"

  /** A local calendar date as `Date` reports it: `monthIndex` is 0-based (`getMonth()`). */
  datatype CalendarDate = CalendarDate(year: int, monthIndex: nat, day: nat) {
    predicate Valid() { monthIndex < 12 && 1 <= day <= 31 }
  }

  /** The storage key of a day's total: the prefix, the year, then the 1-based month and the day padded to two digits. */
  function DayKey(d: CalendarDate): (k: string)
    ensures |k| >= |Prefix| + |IntStr(d.year)| && k[..|Prefix|] == Prefix
    ensures k[|Prefix|..|Prefix| + |IntStr(d.year)|] == IntStr(d.year)
    ensures d.Valid() ==> |k| == |Prefix| + |IntStr(d.year)| + 6
  {
    var y, mm, dd := IntStr(d.year), Pad2(d.monthIndex + 1), Pad2(d.day);
    var k := Prefix + y + "-" + mm + "-" + dd;
    KeyStart(Prefix, y, mm, dd);
    if d.Valid() then
      Pad2RoundTrip(d.monthIndex + 1);
      Pad2RoundTrip(d.day);
      k
    else k
  }

  /** The prefix and the year open the key, and the two separators add two characters. */
  lemma {:induction false} KeyStart(p: string, y: string, mm: string, dd: string)
    ensures var k := p + y + "-" + mm + "-" + dd;
      |k| == |p| + |y| + |mm| + |dd| + 2 && k[..|p|] == p && k[|p|..|p| + |y|] == y
  {
    var k := p + y + "-" + mm + "-" + dd;
    assert k == p + y + ("-" + mm + "-" + dd);
    assert k[..|p|] == p && k[|p|..|p| + |y|] == y;
  }

  /** `k` holds the fields of `d` in the places `DayKey` puts them. */
  predicate HoldsDate(k: string, d: CalendarDate) {
    |k| >= |Prefix| + 7 && k[..|Prefix|] == Prefix &&
    k[|Prefix|..|k| - 6] == IntStr(d.year) &&
    k[|k| - 6] == '-' && k[|k| - 3] == '-' &&
    k[|k| - 5..|k| - 3] == Pad2(d.monthIndex + 1) && k[|k| - 2..] == Pad2(d.day)
  }

  /**
   * The key can be taken apart: after the prefix comes the year, and the
   * last six characters are `-MM-DD` holding the padded month and day.
   */
  lemma {:induction false} DayKeyFields(d: CalendarDate)
    requires d.Valid()
    ensures HoldsDate(DayKey(d), d)
  {
    var y, mm, dd := IntStr(d.year), Pad2(d.monthIndex + 1), Pad2(d.day);
    assert |mm| == 2 && |dd| == 2 by {
      Pad2RoundTrip(d.monthIndex + 1);
      Pad2RoundTrip(d.day);
    }
    assert |y| >= 1;
    assert DayKey(d) == Prefix + y + "-" + mm + "-" + dd;
    KeyParts(Prefix, y, mm, dd);
  }

  /** Different valid dates never share a key: each field reads back from its place in the key. */
  lemma {:induction false} DayKeyInjective(a: CalendarDate, b: CalendarDate)
    requires a.Valid() && b.Valid()
    requires DayKey(a) == DayKey(b)
    ensures a == b
  {
    DayKeyFields(a);
    DayKeyFields(b);
    OneDatePerKey(DayKey(a), a, b);
  }

  lemma {:induction false} OneDatePerKey(k: string, a: CalendarDate, b: CalendarDate)
    requires HoldsDate(k, a) && HoldsDate(k, b)
    ensures a == b
  {
    IntStrInjective(a.year, b.year);
    Pad2Injective(a.monthIndex + 1, b.monthIndex + 1);
    Pad2Injective(a.day, b.day);
  }

  /** Where the pieces of `p + y + "-" + mm + "-" + dd` sit when `mm` and `dd` have two characters. */
  lemma {:induction false} KeyParts(p: string, y: string, mm: string, dd: string)
    requires |y| >= 1 && |mm| == 2 && |dd| == 2
    ensures var k := p + y + "-" + mm + "-" + dd;
      |k| >= |p| + 7 && k[..|p|] == p && k[|p|..|k| - 6] == y &&
      k[|k| - 6] == '-' && k[|k| - 3] == '-' && k[|k| - 5..|k| - 3] == mm && k[|k| - 2..] == dd
  {
    var tail := "-" + mm + "-" + dd;
    var k := p + y + "-" + mm + "-" + dd;
    assert k == (p + y) + tail;
    assert k[..|p|] == p;
    assert k[|p|..|k| - 6] == y;
    assert k[|k| - 6..] == tail;
    assert tail[1..3] == mm && tail[4..] == dd;
  }

  /** `getUsedMsToday` on a store: the entry under `key`, or 0 when there is none. */
  function UsedMs(store: map<string, int>, key: string): (r: int)
    ensures key !in store ==> r == 0
    ensures key in store ==> r == store[key]
  {
    if key in store then store[key] else 0
  }

  /** The store after `addUsedMs(ms)`: the entry under `key` grows by exactly `ms`, every other entry is kept. */
  function AddUsed(store: map<string, int>, key: string, ms: int): (r: map<string, int>)
    ensures UsedMs(r, key) == UsedMs(store, key) + ms
    ensures r.Keys == store.Keys + {key}
    ensures forall k :: k in store && k != key ==> r[k] == store[k]
  {
    store[key := UsedMs(store, key) + ms]
  }

  /** `isLockedToday` for a day's total: fifteen minutes are used up. */
  function Locked(used: int): (r: bool)
    ensures r <==> used >= 900000
  {
    used >= DailyLimitMs
  }

  /** `remainingMsToday` for a day's total. */
  function Remaining(used: int): (r: int)
    ensures r >= 0 && r >= DailyLimitMs - used
    ensures r == 0 <==> Locked(used)
    ensures used >= 0 ==> r <= DailyLimitMs
    ensures !Locked(used) ==> used + r == DailyLimitMs
  {
    if DailyLimitMs - used > 0 then DailyLimitMs - used else 0
  }

  /**
   * The module's state: the store, the origin of the running session
   * (`sessionStart`, absent when no session runs) and whether the
   * interval timer is armed (`tick`).
   */
  datatype Session = Session(store: map<string, int>, start: Option<int>, ticking: bool) {
    /** The timer runs exactly while a session does. */
    predicate Valid() { ticking == start.Some? }
  }

  /** `startSession` at time `now`: nothing when the day is locked or a session already runs. */
  function Start(s: Session, key: string, now: int): (r: Session)
    ensures r.store == s.store
    ensures r != s <==> s.start == None && !Locked(UsedMs(s.store, key))
    ensures r != s ==> r.start == Some(now) && r.ticking
  {
    if Locked(UsedMs(s.store, key)) then s
    else if s.start.Some? then s
    else Session(s.store, Some(now), true)
  }

  /** `stopSession` at time `now`: credits the time since the origin, clears the origin and disarms the timer. */
  function Stop(s: Session, key: string, now: int): (r: Session)
    ensures r.start == None
    ensures s.start == None ==> r == s
    ensures s.start.Some? ==> !r.ticking && UsedMs(r.store, key) == UsedMs(s.store, key) + (now - s.start.value)
  {
    match s.start
    case None => s
    case Some(origin) => Session(AddUsed(s.store, key, now - origin), None, false)
  }

  /**
   * One run of the interval callback.  The clock is read three times: for
   * the elapsed time (`t1`), for the new origin (`t2`), and inside
   * `stopSession` when the cap is reached (`t3`).
   */
  function Tick(s: Session, key: string, t1: int, t2: int, t3: int): (r: Session)
    ensures s.start == None ==> r == s
    ensures s.start.Some? ==> (r.start == None <==> Locked(UsedMs(s.store, key) + (t1 - s.start.value)))
    ensures s.start.Some? && r.start.Some? ==>
      r.start == Some(t2) && UsedMs(r.store, key) == UsedMs(s.store, key) + (t1 - s.start.value)
    ensures s.start.Some? && r.start == None ==>
      UsedMs(r.store, key) == UsedMs(s.store, key) + (t1 - s.start.value) + (t3 - t2)
  {
    match s.start
    case None => s
    case Some(origin) =>
      var s' := Session(AddUsed(s.store, key, t1 - origin), Some(t2), s.ticking);
      if Locked(UsedMs(s'.store, key)) then Stop(s', key, t3) else s'
  }

  /** Time accounted for at `now`: what the store holds plus what the running session has not yet credited. */
  function Accounted(s: Session, key: string, now: int): int {
    UsedMs(s.store, key) + (if s.start.Some? then now - s.start.value else 0)
  }

  /** The session state is consistent with a clock that has reached `now`. */
  predicate Before(s: Session, now: int) {
    s.start.Some? ==> s.start.value <= now
  }

  /** Every operation keeps the timer armed exactly while a session runs. */
  lemma {:induction false} OperationsKeepValid(s: Session, key: string, t1: int, t2: int, t3: int)
    requires s.Valid()
    ensures Start(s, key, t1).Valid() && Stop(s, key, t1).Valid() && Tick(s, key, t1, t2, t3).Valid()
  {
  }

  /** A second start changes nothing: two starts without a stop make one session. */
  lemma {:induction false} StartIdempotent(s: Session, key: string, now: int, later: int)
    ensures Start(Start(s, key, now), key, later) == Start(s, key, now)
  {
  }

  /** A second stop changes nothing. */
  lemma {:induction false} StopIdempotent(s: Session, key: string, now: int, later: int)
    ensures Stop(Stop(s, key, now), key, later) == Stop(s, key, now)
  {
  }

  /** A session started at `t0` and stopped at `t` credits exactly `t - t0`, unless the day was locked or a session already ran. */
  lemma {:induction false} SessionCredits(s: Session, key: string, t0: int, t: int)
    requires s.start == None && !Locked(UsedMs(s.store, key))
    ensures UsedMs(Stop(Start(s, key, t0), key, t).store, key) == UsedMs(s.store, key) + (t - t0)
    ensures Stop(Start(s, key, t0), key, t).start == None
  {
  }

  /** Starting and stopping move no time in or out of the account. */
  lemma {:induction false} StartStopConserve(s: Session, key: string, now: int)
    ensures Accounted(Stop(s, key, now), key, now) == Accounted(s, key, now)
    ensures Accounted(Start(s, key, now), key, now) == Accounted(s, key, now)
  {
  }

  /**
   * A tick moves the elapsed time from the running session into the
   * store.  Only the gap between its first two clock readings is lost;
   * with one instantaneous reading nothing is.
   */
  lemma {:induction false} TickConserves(s: Session, key: string, t1: int, t2: int, t3: int)
    ensures Accounted(Tick(s, key, t1, t2, t3), key, t3) ==
      Accounted(s, key, t3) - (if s.start.Some? then t2 - t1 else 0)
  {
    if s.start.Some? {
      var s' := Session(AddUsed(s.store, key, t1 - s.start.value), Some(t2), s.ticking);
      assert Accounted(s', key, t3) == Accounted(s, key, t3) - (t2 - t1);
    }
  }

  /** With a clock that does not run backwards, no operation lowers the day's total. */
  lemma {:induction false} UsedNeverDecreases(s: Session, key: string, t1: int, t2: int, t3: int)
    requires Before(s, t1) && t1 <= t2 <= t3
    ensures UsedMs(Start(s, key, t1).store, key) >= UsedMs(s.store, key)
    ensures UsedMs(Stop(s, key, t1).store, key) >= UsedMs(s.store, key)
    ensures UsedMs(Tick(s, key, t1, t2, t3).store, key) >= UsedMs(s.store, key)
    ensures Before(Start(s, key, t1), t1) && Before(Tick(s, key, t1, t2, t3), t3)
  {
  }

  /** Once the day is locked it stays locked, and a tick that reaches the cap ends the session. */
  lemma {:induction false} LockIsFinal(s: Session, key: string, t1: int, t2: int, t3: int)
    requires Before(s, t1) && t1 <= t2 <= t3
    ensures Locked(UsedMs(s.store, key)) ==>
      Locked(UsedMs(Start(s, key, t1).store, key)) && Start(s, key, t1).start == s.start &&
      Locked(UsedMs(Stop(s, key, t1).store, key)) &&
      Locked(UsedMs(Tick(s, key, t1, t2, t3).store, key))
    ensures Locked(UsedMs(Tick(s, key, t1, t2, t3).store, key)) ==> Tick(s, key, t1, t2, t3).start == None
  {
  }

  /**
   * The module-level state of `usage.ts` and its exported operations.
   * `today` is the key `todayKey()` yields at the call, `DayKey` of the
   * date `new Date()` reports then.
   */
  class Tracker {
    var store: map<string, int>
    var sessionStart: Option<int>
    var ticking: bool

    function State(): Session
      reads this
    {
      Session(store, sessionStart, ticking)
    }

    /** The interval timer is armed exactly while a session runs. */
    predicate Valid()
      reads this
    {
      State().Valid()
    }

    constructor (store: map<string, int>)
      ensures State() == Session(store, None, false) && Valid()
    {
      this.store := store;
      sessionStart := None;
      ticking := false;
    }

    /** `getUsedMsToday`. */
    function UsedMsToday(today: string): (r: int)
      reads this
      ensures today !in store ==> r == 0
      ensures today in store ==> r == store[today]
    {
      UsedMs(store, today)
    }

    /** `isLockedToday`. */
    function IsLockedToday(today: string): (r: bool)
      reads this
      ensures r <==> UsedMsToday(today) >= DailyLimitMs
    {
      Locked(UsedMsToday(today))
    }

    /** `remainingMsToday`. */
    function RemainingMsToday(today: string): (r: int)
      reads this
      ensures r >= 0 && (r == 0 <==> IsLockedToday(today))
      ensures !IsLockedToday(today) ==> UsedMsToday(today) + r == DailyLimitMs
    {
      Remaining(UsedMsToday(today))
    }

    /** `addUsedMs`: a read-modify-write of today's entry. */
    method AddUsedMs(today: string, ms: int)
      modifies this
      ensures store == AddUsed(old(store), today, ms)
      ensures sessionStart == old(sessionStart) && ticking == old(ticking)
    {
      var cur := UsedMsToday(today);
      store := store[today := cur + ms];
    }

    /** `startSession`. */
    method StartSession(today: string, now: int)
      requires Valid()
      modifies this
      ensures State() == Start(old(State()), today, now) && Valid()
    {
      OperationsKeepValid(State(), today, now, now, now);
      if IsLockedToday(today) {
        return;
      }
      if sessionStart.Some? {
        return;
      }
      sessionStart := Some(now);
      ticking := true;
    }

    /** `stopSession`. */
    method StopSession(today: string, now: int)
      requires Valid()
      modifies this
      ensures State() == Stop(old(State()), today, now) && Valid()
    {
      OperationsKeepValid(State(), today, now, now, now);
      if sessionStart == None {
        return;
      }
      var ms := now - sessionStart.value;
      AddUsedMs(today, ms);
      sessionStart := None;
      if ticking {
        ticking := false;
      }
    }

    /** The body of the interval callback. */
    method OnTick(today: string, t1: int, t2: int, t3: int)
      requires Valid()
      modifies this
      ensures State() == Tick(old(State()), today, t1, t2, t3) && Valid()
    {
      OperationsKeepValid(State(), today, t1, t2, t3);
      if sessionStart == None {
        return;
      }
      var ms := t1 - sessionStart.value;
      sessionStart := Some(t2);
      AddUsedMs(today, ms);
      if IsLockedToday(today) {
        StopSession(today, t3);
      }
    }
  }

  // ----- the mm:ss formatter -----

  /** Division truncated toward zero, the quotient JavaScript's `%` leaves its remainder from. */
  function TruncDiv(a: int, b: int): int
    requires b > 0
  {
    if a >= 0 then a / b else -((-a) / b)
  }

  /** JavaScript's `%`: the remainder takes the sign of the dividend. */
  function JsRem(a: int, b: int): (r: int)
    requires b > 0
    ensures a >= 0 ==> 0 <= r < b && r == a % b
    ensures a < 0 ==> -b < r <= 0
    ensures a == b * TruncDiv(a, b) + r
  {
    if a >= 0 then a % b
    else
      var q := (-a) / b;
      assert -a == b * q + (-a) % b;
      assert b * (-q) == -(b * q);
      -((-a) % b)
  }

  /** `formatMmSs`: whole seconds split into minutes and seconds, each padded to two digits. */
  function FormatMmSs(ms: int): (r: string)
    ensures exists i :: 2 <= i <= |r| - 3 && r[i] == ':'
  {
    var s := ms / 1000;
    var m := s / 60;
    var sec := JsRem(s, 60);
    var mm, ss := PadStart(IntStr(m), 2, '0'), PadStart(IntStr(sec), 2, '0');
    assert (mm + ":" + ss)[|mm|] == ':';
    mm + ":" + ss
  }

  /**
   * For a non-negative duration the text reads back: the last two
   * characters are the seconds, below 60, after a colon; before it the
   * minutes, at least two digits; together they give the whole seconds.
   */
  lemma {:induction false} FormatMmSsReadsBack(ms: int)
    requires ms >= 0
    ensures ReadsBackAs(FormatMmSs(ms), ms / 1000)
  {
    FormatMmSsPadded(ms);
    FieldsReadBack(ms / 1000, FormatMmSs(ms));
  }

  /** `r` is `mm:ss` with at least two minute digits, the seconds below 60, together worth `s` seconds. */
  predicate ReadsBackAs(r: string, s: int) {
    |r| >= 5 && r[|r| - 3] == ':' &&
    IsDigits(r[..|r| - 3]) && IsDigits(r[|r| - 2..]) &&
    ParseDigits(r[|r| - 2..]) < 60 &&
    ParseDigits(r[..|r| - 3]) * 60 + ParseDigits(r[|r| - 2..]) == s
  }

  lemma {:induction false} FieldsReadBack(s: nat, r: string)
    requires r == Pad2(s / 60) + ":" + Pad2(s % 60)
    ensures ReadsBackAs(r, s)
  {
    var m, sec := s / 60, s % 60;
    Pad2RoundTrip(m);
    Pad2RoundTrip(sec);
    MinutesAndSeconds(s);
    JoinedFields(Pad2(m), Pad2(sec), m, sec, r);
  }

  lemma {:induction false} JoinedFields(mm: string, ss: string, m: nat, sec: nat, r: string)
    requires IsDigits(mm) && IsDigits(ss) && |mm| >= 2 && |ss| == 2
    requires ParseDigits(mm) == m && ParseDigits(ss) == sec && sec < 60
    requires r == mm + ":" + ss
    ensures ReadsBackAs(r, m * 60 + sec)
  {
    ColonJoin(mm, ss);
  }

  /** Where the two fields sit in `mm + ":" + ss` when the seconds take two characters. */
  lemma {:induction false} ColonJoin(mm: string, ss: string)
    requires |mm| >= 2 && |ss| == 2
    ensures var r := mm + ":" + ss;
      |r| >= 5 && r[|r| - 3] == ':' && r[..|r| - 3] == mm && r[|r| - 2..] == ss
  {
    var r := mm + ":" + ss;
    assert r[..|r| - 3] == mm;
    assert r[|r| - 2..] == ss;
  }

  lemma {:induction false} MinutesAndSeconds(s: int)
    ensures (s / 60) * 60 + s % 60 == s && 0 <= s % 60 < 60
  {
  }

  /** For a non-negative duration both fields are plain two-digit paddings. */
  lemma {:induction false} FormatMmSsPadded(ms: int)
    requires ms >= 0
    ensures FormatMmSs(ms) == Pad2(ms / 1000 / 60) + ":" + Pad2(ms / 1000 % 60)
  {
    var s := ms / 1000;
    assert JsRem(s, 60) == s % 60;
    assert IntStr(s / 60) == NatStr(s / 60) && IntStr(s % 60) == NatStr(s % 60);
  }

  /** The whole daily allowance renders as 15:00. */
  lemma {:induction false} FullAllowanceText(ms: int)
    requires ms == DailyLimitMs
    ensures FormatMmSs(ms) == "15:00"
  {
    FormatMmSsPadded(ms);
    assert ms / 1000 / 60 == 15 && ms / 1000 % 60 == 0;
    ClockFields(ms / 1000 / 60, ms / 1000 % 60, FormatMmSs(ms));
  }

  /** 61.5 seconds render as 01:01: the half second is dropped. */
  lemma {:induction false} MinuteAndASecondText(ms: int)
    requires ms == 61500
    ensures FormatMmSs(ms) == "01:01"
  {
    FormatMmSsPadded(ms);
    assert ms / 1000 / 60 == 1 && ms / 1000 % 60 == 1;
    ClockFields(ms / 1000 / 60, ms / 1000 % 60, FormatMmSs(ms));
  }

  lemma {:induction false} ClockFields(m: nat, sec: nat, r: string)
    requires (m == 15 && sec == 0) || (m == 1 && sec == 1)
    requires r == Pad2(m) + ":" + Pad2(sec)
    ensures m == 15 ==> r == "15:00"
    ensures m == 1 ==> r == "01:01"
  {
    PadSingle(sec);
    if m == 15 {
      PadFifteen(m);
    } else {
      PadSingle(m);
    }
  }

  lemma {:induction false} PadSingle(n: nat)
    requires n < 10
    ensures Pad2(n) == ['0', DigitChar(n)]
  {
    assert NatStr(n) == [DigitChar(n)];
  }

  lemma {:induction false} PadFifteen(n: nat)
    requires n == 15
    ensures Pad2(n) == "15"
  {
    assert NatStr(n) == NatStr(1) + [DigitChar(5)];
    assert NatStr(1) == [DigitChar(1)];
  }
}
