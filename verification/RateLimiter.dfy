/** internal/prober/server.go: the fixed-window limiter of the echo server. Its specification is the
    trace of the calls made so far; the class keeps only the counters of the current window and is
    proved to answer as the trace says. */
module RateLimiter {
  import opened Units

  datatype Caps = Caps(perIp: int, total: int)

  /** The calls to allow, latest last: the clock read by the call, the address, the answer. */
  datatype Trace = Empty | Call(past: Trace, at: int, ip: string, ok: bool)

  /** Whether a call at this instant starts a new window: there is none yet, or it is a second old. */
  predicate Opens(t: Trace, at: int)
    decreases t, 1
  {
    WindowStart(t).None? || at - WindowStart(t).value >= SECOND
  }

  function WindowStart(t: Trace): Option<int>
    decreases t, 0
  {
    match t
    case Empty => None
    case Call(past, at, _, _) => if Opens(past, at) then Some(at) else WindowStart(past)
  }

  /** Whose packets are counted: everybody's, or one address's. */
  predicate Covers(who: Option<string>, ip: string) {
    who.None? || who.value == ip
  }

  /** The packets admitted since the current window started. */
  function Used(t: Trace, who: Option<string>): nat
    decreases t, 0
  {
    match t
    case Empty => 0
    case Call(past, at, ip, ok) => Charged(past, who, at) + (if ok && Covers(who, ip) then 1 else 0)
  }

  /** The admissions a call at this instant is weighed against. */
  function Charged(t: Trace, who: Option<string>, at: int): nat
    decreases t, 1
  {
    if Opens(t, at) then 0 else Used(t, who)
  }

  /** A packet is admitted iff the window's admissions are below the total cap and those of its
      address are below the per-address cap. */
  predicate Admits(caps: Caps, t: Trace, at: int, ip: string) {
    Charged(t, None, at) < caps.total && Charged(t, Some(ip), at) < caps.perIp
  }

  /** Every answer in the trace is the specified one. */
  ghost predicate Genuine(caps: Caps, t: Trace) {
    match t
    case Empty => true
    case Call(past, at, ip, ok) => Genuine(caps, past) && ok == Admits(caps, past, at, ip)
  }

  ghost predicate Monotone(t: Trace) {
    match t
    case Empty => true
    case Call(past, at, _, _) => Monotone(past) && (past.Empty? || past.at <= at)
  }

  class Limiter {
    const caps: Caps
    var window: Option<int>
    var perIp: map<string, nat>
    var total: nat
    ghost var trace: Trace

    ghost predicate Valid()
      reads this
    {
      && Genuine(caps, trace)
      && window == WindowStart(trace)
      && total == Used(trace, None)
      && forall ip: string :: Count(perIp, ip) == Used(trace, Some(ip))
    }

    constructor (caps: Caps)
      ensures Valid() && this.caps == caps && trace == Empty
    {
      this.caps := caps;
      window, perIp, total := None, map[], 0;
      trace := Empty;
    }

    method Allow(now: int, ip: string) returns (ok: bool)
      requires Valid()
      modifies this
      ensures Valid()
      ensures ok == Admits(caps, old(trace), now, ip)
      ensures trace == Call(old(trace), now, ip, ok)
    {
      if window == None || now - window.value >= SECOND {
        window := Some(now);
        perIp := map[];
        total := 0;
      }
      assert total == Charged(trace, None, now);
      assert forall a: string :: Count(perIp, a) == Charged(trace, Some(a), now);
      if total >= caps.total {
        trace := Call(trace, now, ip, false);
        return false;
      }
      if Count(perIp, ip) >= caps.perIp {
        trace := Call(trace, now, ip, false);
        return false;
      }
      perIp := perIp[ip := Count(perIp, ip) + 1];
      total := total + 1;
      trace := Call(trace, now, ip, true);
      return true;
    }
  }

  /** Reading a Go map: a missing key counts zero. */
  function Count(m: map<string, nat>, ip: string): nat {
    if ip in m then m[ip] else 0
  }

  // ----- What the answers add up to -----

  /** In every window the admissions stay within the cap, in total and for each address; a refused
      packet is not charged. */
  lemma {:induction false} WindowWithinCap(caps: Caps, t: Trace, who: Option<string>)
    requires Genuine(caps, t)
    ensures Used(t, who) <= CapFor(caps, who)
    ensures t.Call? && !t.ok ==> Used(t, who) == Charged(t.past, who, t.at)
  {
    if t.Empty? {
    } else {
      WindowWithinCap(caps, t.past, who);
    }
  }

  /** The addresses admitted since the current window started, with multiplicity. */
  function InWindow(t: Trace): multiset<string> {
    match t
    case Empty => multiset{}
    case Call(past, at, ip, ok) =>
      (if Opens(past, at) then multiset{} else InWindow(past)) + (if ok then multiset{ip} else multiset{})
  }

  /** The total is the sum of the per-address counts: one multiset of admissions accounts for all. */
  lemma {:induction false} TotalIsSumOfAddresses(t: Trace, ip: string)
    ensures Used(t, None) == |InWindow(t)| && Used(t, Some(ip)) == InWindow(t)[ip]
  {
    if t.Empty? {
    } else {
      TotalIsSumOfAddresses(t.past, ip);
    }
  }

  function CapFor(caps: Caps, who: Option<string>): nat {
    var cap := if who.None? then caps.total else caps.perIp;
    if cap < 0 then 0 else cap
  }

  /** The packets admitted in the closed interval [a, b]. */
  function AdmittedIn(t: Trace, who: Option<string>, a: int, b: int): nat {
    match t
    case Empty => 0
    case Call(past, at, ip, ok) =>
      AdmittedIn(past, who, a, b) + (if ok && Covers(who, ip) && a <= at <= b then 1 else 0)
  }

  /** The windows that can hold an admission in [a, b]: they start in (a - 1 s, b]. */
  function WindowsIn(t: Trace, a: int, b: int): nat {
    match t
    case Empty => 0
    case Call(past, at, _, _) =>
      WindowsIn(past, a, b) + (if Opens(past, at) && a - SECOND < at <= b then 1 else 0)
  }

  /** The latest window start not after b. */
  function LatestStart(t: Trace, b: int): Option<int> {
    match t
    case Empty => None
    case Call(past, at, _, _) => if Opens(past, at) && at <= b then Some(at) else LatestStart(past, b)
  }

  function CeilSeconds(length: nat): nat {
    (length + SECOND - 1) / SECOND
  }

  /** Over any closed interval of a run with a monotone clock, at most ceil(L) + 1 windows' worth of
      packets is admitted, where L is the interval's length in seconds: in total, and for each
      address under its own cap. */
  lemma AnyIntervalBound(caps: Caps, t: Trace, who: Option<string>, a: int, b: int)
    requires Genuine(caps, t) && Monotone(t) && a <= b
    ensures AdmittedIn(t, who, a, b) <= (CeilSeconds(b - a) + 1) * CapFor(caps, who)
    ensures a == b ==> AdmittedIn(t, who, a, b) <= CapFor(caps, who)
  {
    ChargedToWindows(caps, t, who, a, b);
    WindowWithinCap(caps, t, who);
    WindowsApart(t, a, b);
    BudgetIsProduct(WindowsIn(t, a, b), CapFor(caps, who));
    Scale(WindowsIn(t, a, b), CeilSeconds(b - a) + 1, CapFor(caps, who));
    if a == b { Scale(WindowsIn(t, a, b), 1, CapFor(caps, who)); }
  }

  lemma Scale(few: nat, many: nat, cap: nat)
    requires few <= many
    ensures few * cap <= many * cap
  {
  }

  /** The capacity of a number of windows, added up window by window. */
  function Budget(windows: nat, cap: nat): nat {
    if windows == 0 then 0 else Budget(windows - 1, cap) + cap
  }

  lemma {:induction false} BudgetIsProduct(windows: nat, cap: nat)
    ensures Budget(windows, cap) == windows * cap
  {
    if windows == 0 {
    } else {
      BudgetIsProduct(windows - 1, cap);
    }
  }

  /** Each admission in [a, b] is charged to a window counted by WindowsIn, and no window to more
      than the cap; the current window only to what it has used. */
  ghost predicate Charges(t: Trace, who: Option<string>, cap: nat, a: int, b: int) {
    if CurrentCounts(t, a, b) then
      WindowsIn(t, a, b) >= 1
      && AdmittedIn(t, who, a, b) <= Budget(WindowsIn(t, a, b) - 1, cap) + Used(t, who)
    else
      AdmittedIn(t, who, a, b) <= Budget(WindowsIn(t, a, b), cap)
  }

  lemma {:induction false} ChargedToWindows(caps: Caps, t: Trace, who: Option<string>, a: int, b: int)
    requires Genuine(caps, t) && Monotone(t)
    ensures Charges(t, who, CapFor(caps, who), a, b)
  {
    if t.Empty? {
    } else {
      ChargedToWindows(caps, t.past, who, a, b);
      WindowWithinCap(caps, t.past, who);
      StartedBefore(t);
      if Opens(t.past, t.at) {
        ChargeToNewWindow(t, who, CapFor(caps, who), a, b);
      }
    }
  }

  lemma ChargeToNewWindow(t: Trace, who: Option<string>, cap: nat, a: int, b: int)
    requires t.Call? && Opens(t.past, t.at)
    requires Charges(t.past, who, cap, a, b) && Used(t.past, who) <= cap
    ensures Charges(t, who, cap, a, b)
  {
    var w := WindowsIn(t.past, a, b);
    assert AdmittedIn(t.past, who, a, b) <= Budget(w, cap);
    assert WindowStart(t) == Some(t.at);
  }

  ghost predicate CurrentCounts(t: Trace, a: int, b: int) {
    WindowStart(t).Some? && a - SECOND < WindowStart(t).value <= b
  }

  /** The current window started no later than the latest call, and less than a second before it. */
  lemma {:induction false} StartedBefore(t: Trace)
    requires Monotone(t)
    ensures t.Call? ==> WindowStart(t).Some? && WindowStart(t).value <= t.at < WindowStart(t).value + SECOND
  {
    if t.Empty? {
    } else {
      StartedBefore(t.past);
    }
  }

  /** Window starts are at least a second apart. */
  lemma {:induction false} WindowsApart(t: Trace, a: int, b: int)
    requires Monotone(t)
    ensures WindowsIn(t, a, b) >= 1 ==>
              LatestStart(t, b).Some? && LatestStart(t, b).value <= b
              && a - SECOND + (WindowsIn(t, a, b) - 1) * SECOND < LatestStart(t, b).value
    ensures LatestStart(t, b).Some? ==>
              WindowStart(t).Some? && LatestStart(t, b).value <= WindowStart(t).value
  {
    if t.Empty? {
    } else {
      WindowsApart(t.past, a, b);
    }
  }

  // ----- The exact bound -----

  /** The openers of windows that start less than a second before a: admitted, but not in [a, b]. */
  function Straddling(t: Trace, a: int): nat {
    match t
    case Empty => 0
    case Call(past, at, _, _) => Straddling(past, a) + (if Opens(past, at) && a - SECOND < at < a then 1 else 0)
  }

  /** Counting everybody, a window that starts before the interval has spent one admission on its opener. */
  ghost predicate ChargesOpeners(t: Trace, cap: nat, a: int, b: int) {
    if CurrentCounts(t, a, b) then
      WindowsIn(t, a, b) >= 1
      && AdmittedIn(t, None, a, b) + Straddling(t, a) <= Budget(WindowsIn(t, a, b) - 1, cap) + Used(t, None)
    else
      AdmittedIn(t, None, a, b) + Straddling(t, a) <= Budget(WindowsIn(t, a, b), cap)
  }

  lemma {:induction false} OpenersAreCharged(caps: Caps, t: Trace, a: int, b: int)
    requires Genuine(caps, t) && Monotone(t) && a <= b && caps.perIp >= 1 && caps.total >= 1
    ensures ChargesOpeners(t, caps.total, a, b)
  {
    if t.Empty? {
    } else {
      OpenersAreCharged(caps, t.past, a, b);
      WindowWithinCap(caps, t.past, None);
      StartedBefore(t);
      if Opens(t.past, t.at) { OpenerIsCharged(caps, t, a, b); }
    }
  }

  lemma OpenerIsCharged(caps: Caps, t: Trace, a: int, b: int)
    requires t.Call? && Opens(t.past, t.at) && a <= b && caps.perIp >= 1 && caps.total >= 1
    requires t.ok == Admits(caps, t.past, t.at, t.ip)
    requires ChargesOpeners(t.past, caps.total, a, b) && Used(t.past, None) <= caps.total
    ensures ChargesOpeners(t, caps.total, a, b)
  {
    assert t.ok && Used(t, None) == 1 && WindowStart(t) == Some(t.at);
    var w := WindowsIn(t.past, a, b);
    assert AdmittedIn(t.past, None, a, b) + Straddling(t.past, a) <= Budget(w, caps.total);
  }

  /** Without a window that straddles a, the counted windows start in [a, b], a second apart. */
  lemma {:induction false} WindowsWithin(t: Trace, a: int, b: int)
    requires Monotone(t)
    ensures Straddling(t, a) == 0 && WindowsIn(t, a, b) >= 1 ==>
              LatestStart(t, b).Some? && a + (WindowsIn(t, a, b) - 1) * SECOND <= LatestStart(t, b).value <= b
  {
    if t.Empty? {
    } else {
      WindowsWithin(t.past, a, b);
      WindowsApart(t.past, a, b);
    }
  }

  lemma {:induction false} AddressWithinTotal(t: Trace, who: Option<string>, a: int, b: int)
    ensures AdmittedIn(t, who, a, b) <= AdmittedIn(t, None, a, b)
  {
    if t.Empty? {
    } else {
      AddressWithinTotal(t.past, who, a, b);
    }
  }

  /** What one window can admit of those counted: the per-address cap binds only below the total cap. */
  function WindowCap(caps: Caps, who: Option<string>): nat {
    if caps.total < 1 || caps.perIp < 1 then 0
    else if who.None? || caps.total < caps.perIp then caps.total
    else caps.perIp
  }

  /** Whether another address can open a window without using up any of what is counted. */
  predicate OpenedByOthers(caps: Caps, who: Option<string>) {
    who.Some? && caps.perIp < caps.total
  }

  /** The most packets that can be admitted in a closed interval of this length. */
  function MostIn(caps: Caps, who: Option<string>, length: nat): nat {
    var windows, cap := CeilSeconds(length) + 1, WindowCap(caps, who);
    if cap == 0 then 0
    else if length % SECOND == 0 || OpenedByOthers(caps, who) then windows * cap
    else windows * cap - 1
  }

  lemma {:induction false} MoreBudget(few: nat, many: nat, cap: nat)
    requires few <= many
    ensures Budget(few, cap) <= Budget(many, cap)
  {
    if few == many {
    } else {
      MoreBudget(few, many - 1, cap);
    }
  }

  lemma CeilingOf(length: nat)
    ensures length <= CeilSeconds(length) * SECOND < length + SECOND
    ensures length % SECOND == 0 <==> CeilSeconds(length) * SECOND == length
  {
  }

  lemma {:induction false} NothingAdmitted(caps: Caps, t: Trace, who: Option<string>, a: int, b: int)
    requires Genuine(caps, t) && WindowCap(caps, who) == 0
    ensures AdmittedIn(t, who, a, b) == 0
  {
    if t.Empty? {
    } else {
      NothingAdmitted(caps, t.past, who, a, b);
    }
  }

  lemma TotalWithinMost(caps: Caps, t: Trace, a: int, b: int)
    requires Genuine(caps, t) && Monotone(t) && a <= b && caps.perIp >= 1 && caps.total >= 1
    ensures AdmittedIn(t, None, a, b) <= MostIn(caps, None, b - a)
  {
    OpenersAreCharged(caps, t, a, b);
    WindowWithinCap(caps, t, None);
    WindowsApart(t, a, b);
    WindowsWithin(t, a, b);
    CeilingOf(b - a);
    var w, c := WindowsIn(t, a, b), CeilSeconds(b - a);
    assert AdmittedIn(t, None, a, b) + Straddling(t, a) <= Budget(w, caps.total);
    MoreBudget(w, c + 1, caps.total);
    BudgetIsProduct(c + 1, caps.total);
    if Straddling(t, a) == 0 && (b - a) % SECOND != 0 { MoreBudget(w, c, caps.total); }
  }

  /** Over any closed interval of a run with a monotone clock at most MostIn packets are admitted: one
      less than AnyIntervalBound says when the interval is not a whole number of seconds and the opener
      of the first window counts itself. */
  lemma NeverMoreThanMost(caps: Caps, t: Trace, who: Option<string>, a: int, b: int)
    requires Genuine(caps, t) && Monotone(t) && a <= b
    ensures AdmittedIn(t, who, a, b) <= MostIn(caps, who, b - a)
  {
    if WindowCap(caps, who) == 0 {
      NothingAdmitted(caps, t, who, a, b);
    } else if OpenedByOthers(caps, who) {
      AnyIntervalBound(caps, t, who, a, b);
    } else {
      TotalWithinMost(caps, t, a, b);
      AddressWithinTotal(t, who, a, b);
    }
  }

  // ----- The exact bound is attained -----

  /** A different address for every number. */
  function Name(i: nat): string {
    seq(i, _ => '1')
  }

  /** The address the next counted packet comes from. */
  function Source(t: Trace, who: Option<string>, at: int): string {
    if who.Some? then who.value else Name(Charged(t, None, at))
  }

  /** k admitted packets of those counted, at one instant. */
  function Volley(t: Trace, who: Option<string>, at: int, k: nat): Trace {
    if k == 0 then t
    else
      var before := Volley(t, who, at, k - 1);
      Call(before, at, Source(before, who, at), true)
  }

  /** There is room for k more of those counted in the window of this instant. */
  ghost predicate Room(caps: Caps, t: Trace, who: Option<string>, at: int, k: nat) {
    && Charged(t, None, at) + k <= caps.total
    && (who.Some? ==> Charged(t, who, at) + k <= caps.perIp)
    && (who.None? ==> caps.perIp >= 1 && forall i: nat :: i >= Charged(t, None, at) ==> Charged(t, Some(Name(i)), at) == 0)
  }

  ghost predicate Sofar(caps: Caps, t: Trace, at: int) {
    Genuine(caps, t) && Monotone(t) && (t.Call? ==> t.at <= at)
  }

  lemma AdmittedIsCharged(t: Trace, at: int, ip: string)
    ensures var u := Call(t, at, ip, true);
            && !Opens(u, at) && WindowStart(u) == (if Opens(t, at) then Some(at) else WindowStart(t))
            && Charged(u, None, at) == Charged(t, None, at) + 1
            && Charged(u, Some(ip), at) == Charged(t, Some(ip), at) + 1
  {
    var u := Call(t, at, ip, true);
    assert WindowStart(u) == if Opens(t, at) then Some(at) else WindowStart(t);
  }

  lemma OneFits(caps: Caps, t: Trace, who: Option<string>, at: int, k: nat, a: int, b: int)
    requires Sofar(caps, t, at) && Room(caps, t, who, at, k) && k >= 1 && a <= at <= b
    ensures var u := Call(t, at, Source(t, who, at), true);
            && Sofar(caps, u, at) && Room(caps, u, who, at, k - 1) && !Opens(u, at)
            && WindowStart(u) == (if Opens(t, at) then Some(at) else WindowStart(t))
            && AdmittedIn(u, who, a, b) == AdmittedIn(t, who, a, b) + 1
  {
    var u := Call(t, at, Source(t, who, at), true);
    AdmittedIsCharged(t, at, Source(t, who, at));
    if who.None? {
      var c := Charged(t, None, at);
      forall i: nat | i >= c + 1 ensures Charged(u, Some(Name(i)), at) == 0 {
        assert |Name(i)| == i && |Name(c)| == c;
        assert Charged(t, Some(Name(i)), at) == 0;
      }
      assert Charged(t, Some(Name(c)), at) == 0;
    }
  }

  lemma {:induction false} VolleyFits(caps: Caps, t: Trace, who: Option<string>, at: int, k: nat, more: nat, a: int, b: int)
    requires Sofar(caps, t, at) && Room(caps, t, who, at, k + more) && a <= at <= b
    ensures var u := Volley(t, who, at, k);
            && Sofar(caps, u, at) && Room(caps, u, who, at, more)
            && WindowStart(u) == (if k >= 1 && Opens(t, at) then Some(at) else WindowStart(t))
            && AdmittedIn(u, who, a, b) == AdmittedIn(t, who, a, b) + k
  {
    if k == 0 {
    } else {
      VolleyFits(caps, t, who, at, k - 1, more + 1, a, b);
      OneFits(caps, Volley(t, who, at, k - 1), who, at, more + 1, a, b);
    }
  }

  /** n full volleys, a second apart, each opening a window. */
  function Barrage(caps: Caps, t: Trace, who: Option<string>, at: int, n: nat): Trace {
    if n == 0 then t else Volley(Barrage(caps, t, who, at, n - 1), who, at + (n - 1) * SECOND, WindowCap(caps, who))
  }

  lemma {:induction false} BarrageFits(caps: Caps, t: Trace, who: Option<string>, at: int, n: nat, a: int, b: int)
    requires Sofar(caps, t, at) && Opens(t, at) && WindowCap(caps, who) >= 1
    requires n >= 1 ==> a <= at && at + (n - 1) * SECOND <= b
    ensures var u := Barrage(caps, t, who, at, n);
            && Sofar(caps, u, at + n * SECOND) && Opens(u, at + n * SECOND)
            && AdmittedIn(u, who, a, b) == AdmittedIn(t, who, a, b) + Budget(n, WindowCap(caps, who))
  {
    if n == 0 {
    } else {
      BarrageFits(caps, t, who, at, n - 1, a, b);
      VolleyFits(caps, Barrage(caps, t, who, at, n - 1), who, at + (n - 1) * SECOND, WindowCap(caps, who), 0, a, b);
    }
  }

  /** What an opener before the interval leaves of its window's cap. */
  function Left(caps: Caps, who: Option<string>): nat {
    var cap := WindowCap(caps, who);
    if cap == 0 || OpenedByOthers(caps, who) then cap else cap - 1
  }

  /** The address that opens the window before the interval. */
  function Opener(caps: Caps, who: Option<string>): string {
    if OpenedByOthers(caps, who) then who.value + "1" else if who.Some? then who.value else Name(0)
  }

  /** A call that opens a window before the interval, and what is left of its cap at the start of it. */
  function Straddle(caps: Caps, who: Option<string>, start: int, a: int): Trace {
    Volley(Call(Empty, start, Opener(caps, who), true), who, a, Left(caps, who))
  }

  /** The counters after the first admission ever. */
  lemma FirstAdmission(caps: Caps, start: int, ip: string, at: int)
    requires caps.perIp >= 1 && caps.total >= 1 && start < at < start + SECOND
    ensures var t := Call(Empty, start, ip, true);
            && Sofar(caps, t, at) && WindowStart(t) == Some(start) && !Opens(t, at)
            && Charged(t, None, at) == 1
            && forall x: string :: Charged(t, Some(x), at) == if x == ip then 1 else 0
  {
    var t := Call(Empty, start, ip, true);
    assert Opens(Empty, start) && WindowStart(t) == Some(start);
    forall x: string ensures Charged(t, Some(x), at) == if x == ip then 1 else 0 {
      assert Charged(Empty, Some(x), start) == 0;
    }
  }

  lemma OpenerLeavesRoom(caps: Caps, who: Option<string>, start: int, at: int)
    requires WindowCap(caps, who) >= 1 && start < at < start + SECOND
    ensures Room(caps, Call(Empty, start, Opener(caps, who), true), who, at, Left(caps, who))
  {
    var t := Call(Empty, start, Opener(caps, who), true);
    FirstAdmission(caps, start, Opener(caps, who), at);
    if who.None? {
      forall i: nat | i >= 1 ensures Charged(t, Some(Name(i)), at) == 0 { assert |Name(i)| == i && |Name(0)| == 0; }
    } else {
      assert |who.value + "1"| == |who.value| + 1;
      assert Charged(t, who, at) == if OpenedByOthers(caps, who) then 0 else 1;
    }
  }

  lemma StraddleFits(caps: Caps, who: Option<string>, start: int, a: int, b: int)
    requires WindowCap(caps, who) >= 1 && start < a <= b && a < start + SECOND
    ensures var t := Straddle(caps, who, start, a);
            && Sofar(caps, t, a) && WindowStart(t) == Some(start)
            && AdmittedIn(t, who, a, b) == Left(caps, who)
  {
    FirstAdmission(caps, start, Opener(caps, who), a);
    OpenerLeavesRoom(caps, who, start, a);
    VolleyFits(caps, Call(Empty, start, Opener(caps, who), true), who, a, Left(caps, who), 0, a, b);
  }

  ghost predicate Attains(caps: Caps, t: Trace, who: Option<string>, a: int, b: int)
    requires a <= b
  {
    Genuine(caps, t) && Monotone(t) && AdmittedIn(t, who, a, b) == MostIn(caps, who, b - a)
  }

  lemma WholeSecondsAttain(caps: Caps, who: Option<string>, a: int, b: int)
    requires a <= b && (b - a) % SECOND == 0 && WindowCap(caps, who) >= 1
    ensures Attains(caps, Barrage(caps, Empty, who, a, CeilSeconds(b - a) + 1), who, a, b)
  {
    var n := CeilSeconds(b - a) + 1;
    CeilingOf(b - a);
    BudgetIsProduct(n, WindowCap(caps, who));
    BarrageFits(caps, Empty, who, a, n, a, b);
  }

  lemma BrokenSecondsAttain(caps: Caps, who: Option<string>, a: int, b: int)
    requires a <= b && (b - a) % SECOND != 0 && WindowCap(caps, who) >= 1
    ensures var start := b - CeilSeconds(b - a) * SECOND;
            Attains(caps, Barrage(caps, Straddle(caps, who, start, a), who, start + SECOND, CeilSeconds(b - a)), who, a, b)
  {
    var n := CeilSeconds(b - a);
    var start := b - n * SECOND;
    CeilingOf(b - a);
    BudgetIsProduct(n + 1, WindowCap(caps, who));
    StraddleFits(caps, who, start, a, b);
    BarrageFits(caps, Straddle(caps, who, start, a), who, start + SECOND, n, a, b);
  }

  /** The bound is exact: for all caps, whatever is counted, and every interval, some run with a monotone
      clock admits MostIn packets in it, and none admits more. */
  lemma MostIsAttained(caps: Caps, who: Option<string>, a: int, b: int)
    requires a <= b
    ensures exists t :: Attains(caps, t, who, a, b)
  {
    if WindowCap(caps, who) == 0 {
      assert Attains(caps, Empty, who, a, b);
    } else if (b - a) % SECOND == 0 {
      WholeSecondsAttain(caps, who, a, b);
    } else {
      BrokenSecondsAttain(caps, who, a, b);
    }
  }

  // ----- Nobody is refused below load -----

  lemma {:induction false} UsedWasAdmitted(t: Trace, who: Option<string>, a: int, b: int)
    requires Monotone(t) && t.Call? && t.at <= b
    requires WindowStart(t).Some? && a <= WindowStart(t).value
    ensures Used(t, who) <= AdmittedIn(t, who, a, b)
  {
    StartedBefore(t);
    if Opens(t.past, t.at) {
    } else {
      UsedWasAdmitted(t.past, who, a, b);
    }
  }

  /** A packet is refused only under load: in the second that ends with it, a cap's worth of packets has
      been admitted, in total or from its own address. */
  lemma RefusedOnlyUnderLoad(caps: Caps, t: Trace, now: int, ip: string)
    requires caps.perIp >= 1 && caps.total >= 1 && Monotone(Call(t, now, ip, false)) && !Admits(caps, t, now, ip)
    ensures || AdmittedIn(t, None, now - SECOND + 1, now) >= caps.total
            || AdmittedIn(t, Some(ip), now - SECOND + 1, now) >= caps.perIp
  {
    assert !Opens(t, now) && t.Call?;
    UsedWasAdmitted(t, None, now - SECOND + 1, now);
    UsedWasAdmitted(t, Some(ip), now - SECOND + 1, now);
  }
}
