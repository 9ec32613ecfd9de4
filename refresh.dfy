/** The refresh loop of the exporter: on every tick it takes one resolver
    outcome and, when the resolved address differs from the tracked one,
    moves the gauge's single series from the old address to the new one.

    The first half is the specification on values (State, Next, Run and the
    invariant Inv); the second half is the imperative loop over the shared
    gauge vector, proved to follow it. */
module Refresh {
  import opened Gauge

  /** What one call of the resolver produced: the address it decoded, or a
      failure (transport, body read or decoding) whose reason is not kept. */
  datatype Outcome = Ok(ip: string) | Err

  /** What the loop tracks (currentIP) and what scrapes can see (the gauge's
      series map). */
  datatype State = State(currentIP: string, gauge: map<string, int>)

  /** State right after start-up: no address known, no series. */
  function Initial(): (s: State)
    ensures Inv(s)
  {
    State("", map[])
  }

  /** The published view is consistent: either nothing has been published and
      no address is tracked, or exactly the tracked address carries value 1. */
  predicate Inv(s: State) {
    (s.gauge == map[] && s.currentIP == "") || s.gauge == map[s.currentIP := Active]
  }

  /** One tick, as the loop body does it: an error skips the tick, the same
      address does nothing, a different one deletes the old address's series,
      sets the new one to 1 and records it. Stated without assuming Inv. */
  function Next(s: State, o: Outcome): (r: State)
    ensures o.Err? ==> r == s
    ensures o.Ok? ==> r.currentIP == o.ip
    ensures o.Ok? && o.ip == s.currentIP ==> r == s
    ensures o.Ok? && o.ip != s.currentIP ==>
      s.currentIP !in r.gauge && o.ip in r.gauge && r.gauge[o.ip] == Active
    ensures Inv(s) ==> Inv(r)
    ensures Inv(s) && o.Ok? && o.ip != s.currentIP ==> r.gauge == map[o.ip := Active]
  {
    match o
    case Err => s
    case Ok(ip) =>
      if ip == s.currentIP then s
      else State(ip, (s.gauge - {s.currentIP})[ip := Active])
  }

  /** The state after the given ticks, in order, starting from s. Its meaning
      is given by the lemmas RunPreservesInv, RunCurrentIPIsLastOk and
      RunFromInitialGauge below. */
  function Run(s: State, ticks: seq<Outcome>): (r: State)
    decreases |ticks|
  {
    if ticks == [] then s
    else Next(Run(s, ticks[..|ticks| - 1]), ticks[|ticks| - 1])
  }

  /** Tick i succeeded and every later tick failed. */
  predicate LastOkAt(ticks: seq<Outcome>, i: int) {
    0 <= i < |ticks| && ticks[i].Ok? && forall j :: i < j < |ticks| ==> ticks[j].Err?
  }

  /** Some tick resolved an address other than the empty string. */
  predicate ResolvedNonEmpty(ticks: seq<Outcome>) {
    exists i :: 0 <= i < |ticks| && ticks[i].Ok? && ticks[i].ip != ""
  }

  /** Every published view holds at most one series, and each series is 1. */
  lemma InvAtMostOneSeries(s: State)
    requires Inv(s)
    ensures |s.gauge| <= 1
    ensures forall a :: a in s.gauge ==> a == s.currentIP && s.gauge[a] == Active
  {
    if s.gauge != map[] {
      assert s.gauge.Keys == {s.currentIP};
    }
  }

  /** Handing the same outcome to the loop twice is the same as once. */
  lemma NextIdempotent(s: State, o: Outcome)
    ensures Next(Next(s, o), o) == Next(s, o)
  {
  }

  /** Cold start: resolving the empty string publishes nothing. */
  lemma ColdStartEmptyAddress()
    ensures Next(Initial(), Ok("")) == Initial()
    ensures Next(Initial(), Ok("")).gauge == map[]
  {
  }

  /** Every run of ticks keeps the published view consistent. */
  lemma {:induction false} RunPreservesInv(s: State, ticks: seq<Outcome>)
    requires Inv(s)
    ensures Inv(Run(s, ticks))
    decreases |ticks|
  {
    if ticks != [] {
      RunPreservesInv(s, ticks[..|ticks| - 1]);
    }
  }

  /** After a run, the tracked address is what the last successful tick
      resolved; when no tick succeeded, nothing at all has changed. */
  lemma {:induction false} RunCurrentIPIsLastOk(s: State, ticks: seq<Outcome>)
    ensures (forall i :: 0 <= i < |ticks| ==> ticks[i].Err?) ==> Run(s, ticks) == s
    ensures forall i :: LastOkAt(ticks, i) ==> Run(s, ticks).currentIP == ticks[i].ip
    decreases |ticks|
  {
    if ticks != [] {
      var n := |ticks| - 1;
      var prefix := ticks[..n];
      RunCurrentIPIsLastOk(s, prefix);
      forall i | LastOkAt(ticks, i)
        ensures Run(s, ticks).currentIP == ticks[i].ip
      {
        if ticks[n].Err? {
          assert i < n;
          assert LastOkAt(prefix, i);
        }
      }
    }
  }

  /** From start-up, the gauge is empty until some tick resolves a non-empty
      address, and from then on it holds exactly the tracked address at 1. */
  lemma {:induction false} RunFromInitialGauge(ticks: seq<Outcome>)
    ensures Run(Initial(), ticks).gauge ==
      if ResolvedNonEmpty(ticks) then map[Run(Initial(), ticks).currentIP := Active] else map[]
    decreases |ticks|
  {
    if ticks != [] {
      var n := |ticks| - 1;
      var prefix := ticks[..n];
      RunFromInitialGauge(prefix);
      RunPreservesInv(Initial(), prefix);
      if ResolvedNonEmpty(prefix) {
        var i :| 0 <= i < |prefix| && prefix[i].Ok? && prefix[i].ip != "";
        assert ticks[i] == prefix[i];
      } else if ticks[n].Ok? && ticks[n].ip != "" {
        assert ResolvedNonEmpty(ticks);
      } else {
        assert !ResolvedNonEmpty(ticks) by {
          forall i | 0 <= i < |ticks| && ticks[i].Ok?
            ensures ticks[i].ip == ""
          {
            if i < n {
              assert ticks[i] == prefix[i];
            }
          }
        }
      }
    }
  }

  /** The ticks of the behaviour scenarios: first address, the same again,
      a change, a failed tick, and an empty address. */
  lemma Scenarios()
    ensures Next(Initial(), Ok("1.2.3.4")).gauge == map["1.2.3.4" := Active]
    ensures Next(Next(Initial(), Ok("1.2.3.4")), Ok("1.2.3.4")) == Next(Initial(), Ok("1.2.3.4"))
    ensures Run(Initial(), [Ok("1.2.3.4"), Ok("1.2.3.4"), Ok("5.6.7.8")]).gauge == map["5.6.7.8" := Active]
    ensures Run(Initial(), [Ok("1.2.3.4"), Ok("5.6.7.8"), Err]) == Run(Initial(), [Ok("1.2.3.4"), Ok("5.6.7.8")])
    ensures Run(Initial(), [Ok("1.2.3.4"), Ok("")]).gauge == map["" := Active]
  {
    var a := [Ok("1.2.3.4"), Ok("1.2.3.4"), Ok("5.6.7.8")];
    assert a[..2] == [Ok("1.2.3.4"), Ok("1.2.3.4")];
    assert a[..2][..1] == [Ok("1.2.3.4")];
    var once := Next(Initial(), Ok("1.2.3.4"));
    assert a[..2][..1][..0] == [];
    assert Run(Initial(), a[..2][..1]) == once;
    assert Run(Initial(), a[..2]) == once;
    assert (once.gauge - {"1.2.3.4"})["5.6.7.8" := Active] == map["5.6.7.8" := Active];
    var b := [Ok("1.2.3.4"), Ok("5.6.7.8"), Err];
    assert b[..2] == [Ok("1.2.3.4"), Ok("5.6.7.8")];
    var c: seq<Outcome> := [Ok("1.2.3.4"), Ok("")];
    assert c[..1] == [Ok("1.2.3.4")];
  }

  /** The background task: the address it tracks, and the metrics it writes. */
  class Refresher {
    var currentIP: string
    const m: Metrics

    /** The abstract state this object stands for. */
    ghost function Model(): State
      reads this, m, m.ip
    {
      State(currentIP, m.ip.series)
    }

    ghost predicate Valid()
      reads this, m, m.ip
    {
      Inv(Model())
    }

    /** The task starts tracking no address, over an empty gauge vector. */
    constructor (m: Metrics)
      requires m.ip.series == map[]
      ensures this.m == m
      ensures Model() == Initial() && Valid()
    {
      this.m := m;
      currentIP := "";
    }

    /** One tick of the loop, given what the resolver returned. */
    method Step(o: Outcome)
      requires Valid()
      modifies this, m.ip
      ensures Valid()
      ensures Model() == Next(old(Model()), o)
    {
      if o.Err? {
        return;
      }
      var newIP := o.ip;
      if newIP != currentIP {
        var _ := m.ip.Delete(currentIP);
        m.ip.Set(newIP, Active);
        currentIP := newIP;
      }
    }
  }

  /** The background loop over the ticks that have happened so far: it starts
      tracking no address and then runs one Step per tick. */
  method Background(m: Metrics, ticks: seq<Outcome>) returns (r: Refresher)
    requires m.ip.series == map[]
    modifies m.ip
    ensures fresh(r) && r.m == m
    ensures r.Valid()
    ensures r.Model() == Run(Initial(), ticks)
    ensures forall i :: LastOkAt(ticks, i) ==> r.currentIP == ticks[i].ip
    ensures m.ip.series == if ResolvedNonEmpty(ticks) then map[r.currentIP := Active] else map[]
  {
    r := new Refresher(m);
    for i := 0 to |ticks|
      invariant r.m == m
      invariant r.Valid()
      invariant r.Model() == Run(Initial(), ticks[..i])
    {
      assert ticks[..i + 1][..i] == ticks[..i];
      r.Step(ticks[i]);
    }
    assert ticks[..|ticks|] == ticks;
    RunCurrentIPIsLastOk(Initial(), ticks);
    RunFromInitialGauge(ticks);
  }
}
