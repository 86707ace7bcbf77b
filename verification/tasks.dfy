/** The bot's background work: the convergence poller and the hourly sweep
    of instances whose deletion grace period has run out. The clock, the
    fetches and the timestamp parser are inputs. */
module Tasks {
  import opened Common

  const ScheduledDeleteAnnotation: string := "foundry.platform/scheduled-delete-at"
  const DefaultTimeoutSeconds: int := 120
  const DefaultIntervalSeconds: int := 5

  // ---------------------------------------------------------------------
  // wait_for_resource_condition
  // ---------------------------------------------------------------------

  /** What one run of the poller did: the value it returned (None on
      timeout), how many times it fetched, the values `check` was applied
      to, the values handed to the progress callback, and the sleeps. */
  datatype Waited<V> = Waited(result: Option<V>, fetches: nat, checked: seq<V>, progress: seq<V>, sleeps: seq<int>)

  /** A trace the poller can run to the end: the last clock reading is past
      the deadline, and there is a fetch result for every earlier reading.
      `clock[k]` is what `time.time()` reads at the k-th loop test and
      `fetched[k]` what the k-th call of the fetch returns. */
  predicate Trace<V>(start: real, clock: seq<real>, fetched: seq<V>, timeout: int) {
    && |clock| > 0
    && clock[|clock| - 1] - start >= timeout as real
    && |fetched| >= |clock| - 1
  }

  /** A fetched value ends the wait when it is truthy and passes `check`. */
  predicate Hit<V>(truthy: V -> bool, check: V -> bool, v: V) {
    truthy(v) && check(v)
  }

  /** The polls that did not end the wait. */
  function Misses<V>(r: Waited<V>): int {
    if r.result.Some? then r.fetches - 1 else r.fetches
  }

  function WaitFrom<V>(k: nat, start: real, clock: seq<real>, fetched: seq<V>,
                       truthy: V -> bool, check: V -> bool,
                       timeout: int, interval: int, notify: bool): (r: Waited<V>)
    requires Trace(start, clock, fetched, timeout)
    requires k < |clock|
    ensures k <= r.fetches < |clock|
    ensures k <= Misses(r) <= |fetched|
    ensures forall i :: k <= i < r.fetches ==> clock[i] - start < timeout as real
    ensures r.result.Some? ==>
      && k < r.fetches
      && Hit(truthy, check, fetched[r.fetches - 1])
      && r.result.value == fetched[r.fetches - 1]
    ensures r.result.None? ==> clock[r.fetches] - start >= timeout as real
    ensures forall i :: k <= i < Misses(r) ==> !Hit(truthy, check, fetched[i])
    decreases |clock| - k
  {
    if clock[k] - start >= timeout as real then
      Waited(None, k, [], [], [])
    else
      var v := fetched[k];
      if truthy(v) && check(v) then
        Waited(Some(v), k + 1, [v], [], [])
      else
        var rest := WaitFrom(k + 1, start, clock, fetched, truthy, check, timeout, interval, notify);
        var checked := if truthy(v) then [v] + rest.checked else rest.checked;
        var progress := if notify then [v] + rest.progress else rest.progress;
        Waited(rest.result, rest.fetches, checked, progress, [interval] + rest.sleeps)
  }

  /** `check` is only ever applied to truthy values, at most once per fetch. */
  lemma {:induction false} WaitFromChecksTruthy<V>(k: nat, start: real, clock: seq<real>, fetched: seq<V>,
                                                   truthy: V -> bool, check: V -> bool,
                                                   timeout: int, interval: int, notify: bool)
    requires Trace(start, clock, fetched, timeout)
    requires k < |clock|
    ensures var r := WaitFrom(k, start, clock, fetched, truthy, check, timeout, interval, notify);
      && (forall i :: 0 <= i < |r.checked| ==> truthy(r.checked[i]))
      && |r.checked| <= r.fetches - k
    decreases |clock| - k
  {
    if clock[k] - start < timeout as real && !Hit(truthy, check, fetched[k]) {
      WaitFromChecksTruthy(k + 1, start, clock, fetched, truthy, check, timeout, interval, notify);
    }
  }

  /** The progress callback sees every unsuccessful fetch, in order. */
  lemma {:induction false} WaitFromProgress<V>(k: nat, start: real, clock: seq<real>, fetched: seq<V>,
                                               truthy: V -> bool, check: V -> bool,
                                               timeout: int, interval: int, notify: bool)
    requires Trace(start, clock, fetched, timeout)
    requires k < |clock|
    ensures var r := WaitFrom(k, start, clock, fetched, truthy, check, timeout, interval, notify);
      && (notify ==> r.progress == fetched[k..Misses(r)])
      && (!notify ==> r.progress == [])
    decreases |clock| - k
  {
    if clock[k] - start < timeout as real && !Hit(truthy, check, fetched[k]) {
      WaitFromProgress(k + 1, start, clock, fetched, truthy, check, timeout, interval, notify);
      var rest := WaitFrom(k + 1, start, clock, fetched, truthy, check, timeout, interval, notify);
      assert [fetched[k]] + fetched[k + 1..Misses(rest)] == fetched[k..Misses(rest)];
    }
  }

  /** Every unsuccessful fetch is followed by one sleep of the fixed interval. */
  lemma {:induction false} WaitFromSleeps<V>(k: nat, start: real, clock: seq<real>, fetched: seq<V>,
                                             truthy: V -> bool, check: V -> bool,
                                             timeout: int, interval: int, notify: bool)
    requires Trace(start, clock, fetched, timeout)
    requires k < |clock|
    ensures var r := WaitFrom(k, start, clock, fetched, truthy, check, timeout, interval, notify);
      && |r.sleeps| == Misses(r) - k
      && (forall i :: 0 <= i < |r.sleeps| ==> r.sleeps[i] == interval)
    decreases |clock| - k
  {
    if clock[k] - start < timeout as real && !Hit(truthy, check, fetched[k]) {
      WaitFromSleeps(k + 1, start, clock, fetched, truthy, check, timeout, interval, notify);
    }
  }

  /** `wait_for_resource_condition`; `notify` says whether `on_progress` was given. */
  function Wait<V>(start: real, clock: seq<real>, fetched: seq<V>,
                   truthy: V -> bool, check: V -> bool,
                   timeout: int, interval: int, notify: bool): (r: Waited<V>)
    requires Trace(start, clock, fetched, timeout)
    ensures r.fetches < |clock|
    ensures forall i :: 0 <= i < r.fetches ==> clock[i] - start < timeout as real
    ensures r.result.Some? ==>
      && r.fetches > 0
      && Hit(truthy, check, fetched[r.fetches - 1])
      && r.result.value == fetched[r.fetches - 1]
    ensures r.result.None? ==> clock[r.fetches] - start >= timeout as real
    ensures 0 <= Misses(r) <= |fetched|
    ensures forall i :: 0 <= i < Misses(r) ==> !Hit(truthy, check, fetched[i])
    ensures forall i :: 0 <= i < |r.checked| ==> truthy(r.checked[i])
    ensures notify ==> r.progress == fetched[..Misses(r)]
    ensures !notify ==> r.progress == []
    ensures |r.sleeps| == Misses(r)
    ensures forall i :: 0 <= i < |r.sleeps| ==> r.sleeps[i] == interval
  {
    WaitFromChecksTruthy(0, start, clock, fetched, truthy, check, timeout, interval, notify);
    WaitFromProgress(0, start, clock, fetched, truthy, check, timeout, interval, notify);
    WaitFromSleeps(0, start, clock, fetched, truthy, check, timeout, interval, notify);
    WaitFrom(0, start, clock, fetched, truthy, check, timeout, interval, notify)
  }

  /** The poller never misses a hit: if some fetch before the deadline hits,
      the wait returns a value no later than that fetch. */
  lemma WaitFindsEarliestHit<V>(start: real, clock: seq<real>, fetched: seq<V>,
                                truthy: V -> bool, check: V -> bool,
                                timeout: int, interval: int, notify: bool, j: nat)
    requires Trace(start, clock, fetched, timeout)
    requires j < |fetched| && j < |clock|
    requires forall i :: 0 <= i <= j ==> clock[i] - start < timeout as real
    requires Hit(truthy, check, fetched[j])
    ensures var r := Wait(start, clock, fetched, truthy, check, timeout, interval, notify);
      r.result.Some? && r.fetches <= j + 1
  {
    var r := Wait(start, clock, fetched, truthy, check, timeout, interval, notify);
    assert r.fetches <= j ==> clock[r.fetches] - start < timeout as real;
  }

  /** With a timeout of zero or less (and a clock that does not run
      backwards) the resource is never fetched. */
  lemma NonPositiveTimeoutNeverFetches<V>(start: real, clock: seq<real>, fetched: seq<V>,
                                          truthy: V -> bool, check: V -> bool,
                                          interval: int, notify: bool, timeout: int)
    requires Trace(start, clock, fetched, timeout)
    requires timeout <= 0 && clock[0] >= start
    ensures var r := Wait(start, clock, fetched, truthy, check, timeout, interval, notify);
      r.result.None? && r.fetches == 0 && r.checked == [] && r.progress == [] && r.sleeps == []
  {
  }

  /** An ideal clock: fetches take no time and every sleep lasts exactly
      `interval` seconds, so the k-th loop test reads `start + k * interval`. */
  predicate IdealClock(start: real, clock: seq<real>, interval: int) {
    forall i :: 0 <= i < |clock| ==> clock[i] == start + (i * interval) as real
  }

  /** Under an ideal clock the poller fetches at most ceil(timeout / interval)
      times, and a wait that times out fetches exactly that many times. */
  lemma IdealClockPollCount<V>(start: real, clock: seq<real>, fetched: seq<V>,
                               truthy: V -> bool, check: V -> bool,
                               timeout: int, interval: int, notify: bool)
    requires Trace(start, clock, fetched, timeout)
    requires interval > 0 && IdealClock(start, clock, interval)
    ensures var r := Wait(start, clock, fetched, truthy, check, timeout, interval, notify);
      && (r.fetches == 0 || (r.fetches - 1) * interval < timeout)
      && (r.result.None? ==> r.fetches * interval >= timeout)
  {
    var r := Wait(start, clock, fetched, truthy, check, timeout, interval, notify);
    if r.fetches > 0 {
      assert clock[r.fetches - 1] - start < timeout as real;
      assert clock[r.fetches - 1] == start + ((r.fetches - 1) * interval) as real;
    }
    if r.result.None? {
      assert clock[r.fetches] == start + (r.fetches * interval) as real;
    }
  }

  // ---------------------------------------------------------------------
  // cleanup_expired_deletions
  // ---------------------------------------------------------------------

  /** A parsed ISO timestamp: wall-clock seconds in its own zone, with their
      fraction, and the zone's offset from UTC, absent for a naive timestamp. */
  datatype Timestamp = Timestamp(wallSeconds: real, utcOffset: Option<real>)

  /** Seconds since the epoch in UTC; a naive timestamp is read as UTC. */
  function UtcSeconds(t: Timestamp): real {
    t.wallSeconds - t.utcOffset.GetOr(0.0)
  }

  datatype Metadata = Metadata(name: Option<string>, namespace: Option<string>, annotations: map<string, string>)

  /** A listed FoundryInstance; `metadata` may be missing. */
  datatype Instance = Instance(metadata: Option<Metadata>)

  /** What the sweep does with one instance. `Failed` is an exception caught
      and logged for that instance alone. */
  datatype Decision = Keep | Delete(name: string, namespace: string) | Failed

  function ScheduledAt(inst: Instance): Option<string> {
    if inst.metadata.Some? && ScheduledDeleteAnnotation in inst.metadata.value.annotations
    then Some(inst.metadata.value.annotations[ScheduledDeleteAnnotation])
    else None
  }

  /** The grace period is over: the annotation is set, it parses, and the
      scheduled instant is not in the future. */
  predicate Expired(inst: Instance, now: real, parse: string -> Option<Timestamp>) {
    && Truthy(ScheduledAt(inst))
    && parse(ScheduledAt(inst).value).Some?
    && now >= UtcSeconds(parse(ScheduledAt(inst).value).value)
  }

  function Decide(inst: Instance, now: real, parse: string -> Option<Timestamp>): (d: Decision)
    ensures d.Delete? <==>
      Expired(inst, now, parse) && inst.metadata.value.name.Some? && inst.metadata.value.namespace.Some?
    ensures d.Delete? ==> d.name == inst.metadata.value.name.value && d.namespace == inst.metadata.value.namespace.value
    ensures d.Failed? <==>
      Truthy(ScheduledAt(inst)) &&
      (parse(ScheduledAt(inst).value).None? ||
       (Expired(inst, now, parse) && (inst.metadata.value.name.None? || inst.metadata.value.namespace.None?)))
    ensures !Truthy(ScheduledAt(inst)) ==> d == Keep
  {
    var scheduled := ScheduledAt(inst);
    if !Truthy(scheduled) then Keep
    else match parse(scheduled.value)
      case None => Failed
      case Some(t) =>
        if now >= UtcSeconds(t) then
          var meta := inst.metadata.value;
          if meta.name.None? || meta.namespace.None? then Failed
          else Delete(meta.name.value, meta.namespace.value)
        else Keep
  }

  /** One pass of the sweep; nothing happens while the client is disconnected. */
  function Sweep(connected: bool, instances: seq<Instance>, now: real, parse: string -> Option<Timestamp>): (ds: seq<Decision>)
    ensures !connected ==> ds == []
    ensures connected ==> |ds| == |instances|
    decreases |instances|
  {
    if !connected || |instances| == 0 then []
    else Sweep(connected, instances[..|instances| - 1], now, parse) + [Decide(instances[|instances| - 1], now, parse)]
  }

  /** The instances a pass deletes, in listing order: exactly the targets
      of its Delete decisions. */
  function Deleted(ds: seq<Decision>): (targets: seq<(string, string)>)
    ensures |targets| <= |ds|
    ensures forall i :: 0 <= i < |ds| && ds[i].Delete? ==> (ds[i].name, ds[i].namespace) in targets
    ensures forall t :: t in targets ==> Delete(t.0, t.1) in ds
  {
    if |ds| == 0 then []
    else Deleted(ds[..|ds| - 1]) + (if ds[|ds| - 1].Delete? then [(ds[|ds| - 1].name, ds[|ds| - 1].namespace)] else [])
  }

  /** A failure is confined to its instance: a pass over a concatenated
      listing is the two passes one after the other. */
  lemma {:induction false} SweepSplits(instances: seq<Instance>, more: seq<Instance>, now: real, parse: string -> Option<Timestamp>)
    ensures Sweep(true, instances + more, now, parse) == Sweep(true, instances, now, parse) + Sweep(true, more, now, parse)
    decreases |more|
  {
    if |more| == 0 {
      assert instances + more == instances;
    } else {
      var last := more[|more| - 1];
      assert (instances + more)[..|instances + more| - 1] == instances + more[..|more| - 1];
      SweepSplits(instances, more[..|more| - 1], now, parse);
    }
  }

  /** Every instance gets its own decision, whatever the others did. */
  lemma {:induction false} SweepDecidesEach(instances: seq<Instance>, now: real, parse: string -> Option<Timestamp>, i: nat)
    requires i < |instances|
    ensures Sweep(true, instances, now, parse)[i] == Decide(instances[i], now, parse)
    decreases |instances|
  {
    if i < |instances| - 1 {
      SweepDecidesEach(instances[..|instances| - 1], now, parse, i);
    }
  }

  lemma {:induction false} DeletedSplits(ds: seq<Decision>, more: seq<Decision>)
    ensures Deleted(ds + more) == Deleted(ds) + Deleted(more)
    decreases |more|
  {
    if |more| == 0 {
      assert ds + more == ds;
    } else {
      assert (ds + more)[..|ds + more| - 1] == ds + more[..|more| - 1];
      DeletedSplits(ds, more[..|more| - 1]);
    }
  }

  /** A pass deletes every expired instance that carries a name and a
      namespace. */
  lemma {:induction false} DeletesExactlyExpired(instances: seq<Instance>, now: real, parse: string -> Option<Timestamp>, inst: Instance)
    requires inst in instances
    requires inst.metadata.Some? && inst.metadata.value.name.Some? && inst.metadata.value.namespace.Some?
    ensures Expired(inst, now, parse) ==>
      (inst.metadata.value.name.value, inst.metadata.value.namespace.value) in Deleted(Sweep(true, instances, now, parse))
    decreases |instances|
  {
    var init := instances[..|instances| - 1];
    var last := instances[|instances| - 1];
    assert instances == init + [last];
    SweepSplits(init, [last], now, parse);
    assert [last][..0] == [];
    assert Sweep(true, [last], now, parse) == [Decide(last, now, parse)];
    DeletedSplits(Sweep(true, init, now, parse), [Decide(last, now, parse)]);
    assert [Decide(last, now, parse)][..0] == [];
    if inst != last {
      assert inst in init;
      DeletesExactlyExpired(init, now, parse, inst);
    }
  }

  /** Everything a pass deletes is an expired instance of the listing. */
  lemma {:induction false} DeletesOnlyExpired(instances: seq<Instance>, now: real, parse: string -> Option<Timestamp>, target: (string, string))
    requires target in Deleted(Sweep(true, instances, now, parse))
    ensures exists inst :: inst in instances && Expired(inst, now, parse) && Decide(inst, now, parse) == Delete(target.0, target.1)
    decreases |instances|
  {
    var init := instances[..|instances| - 1];
    var last := instances[|instances| - 1];
    assert instances == init + [last];
    SweepSplits(init, [last], now, parse);
    assert [last][..0] == [];
    assert Sweep(true, [last], now, parse) == [Decide(last, now, parse)];
    DeletedSplits(Sweep(true, init, now, parse), [Decide(last, now, parse)]);
    assert [Decide(last, now, parse)][..0] == [];
    if target in Deleted(Sweep(true, init, now, parse)) {
      DeletesOnlyExpired(init, now, parse, target);
    } else {
      assert last in instances;
    }
  }
}
