/**
 The availability summary: one grouped query over hosts, with the reservation tests written as sub-queries.
 It answers, for all hosts of a model at once, what the per-host availability loop answers one by one.
 */
module Summary {
  import opened Wrappers
  import opened Reservations

  datatype ModelSummary = ModelSummary(model: string, total: nat, scheduled: nat, avail2w: nat, avail4w: nat)

  /** The sub-query "some reservation of the host covers the instant". */
  predicate IsScheduled(rows: seq<Reservation>, name: HostName, now: Time) {
    exists r :: r in rows && r.host == name && r.start <= now && r.end > now
  }

  /** The sub-query "some reservation of the host meets the window". */
  predicate HasOverlap(rows: seq<Reservation>, name: HostName, start: Time, end: Time) {
    exists r :: r in rows && r.host == name && r.start < end && start < r.end
  }

  function ScheduledNow(rows: seq<Reservation>, now: Time): Host -> bool {
    (h: Host) => IsScheduled(rows, h.name, now)
  }

  function NoOverlap(rows: seq<Reservation>, start: Time, end: Time): Host -> bool {
    (h: Host) => !HasOverlap(rows, h.name, start, end)
  }

  /** Adds up "1 if the test holds, else 0" over a group of hosts. */
  function SumCase(group: seq<Host>, test: Host -> bool): nat {
    if group == [] then 0 else (if test(group[0]) then 1 else 0) + SumCase(group[1..], test)
  }

  function OfModel(model: string): Host -> bool {
    (h: Host) => h.model == model
  }

  function NotOfModel(model: string): Host -> bool {
    (h: Host) => h.model != model
  }

  function SummaryOf(hosts: seq<Host>, rows: seq<Reservation>, model: string,
                     now: Time, start: Time, end2w: Time, end4w: Time): ModelSummary
  {
    var group := Filter(UsableHosts(hosts), OfModel(model));
    ModelSummary(
      model,
      |group|,
      SumCase(group, ScheduledNow(rows, now)),
      SumCase(group, NoOverlap(rows, start, end2w)),
      SumCase(group, NoOverlap(rows, start, end4w)))
  }

  /** The models that occur, each once. */
  function Models(hosts: seq<Host>): (r: seq<string>)
    ensures forall m :: m in r <==> exists h :: h in hosts && h.model == m
    ensures Distinct(r)
    decreases |hosts|
  {
    if hosts == [] then []
    else
      assert hosts[0] in hosts;
      var rest := Filter(hosts[1..], NotOfModel(hosts[0].model));
      var others := Models(rest);
      assert forall h :: h in rest ==> h.model != hosts[0].model;
      assert hosts[0].model !in others;
      [hosts[0].model] + others
  }

  function AvailabilitySummary(hosts: seq<Host>, rows: seq<Reservation>, now: Time, start: Time, end2w: Time,
                               end4w: Time): seq<ModelSummary>
  {
    var models := Models(UsableHosts(hosts));
    seq(|models|, i requires 0 <= i < |models| => SummaryOf(hosts, rows, models[i], now, start, end2w, end4w))
  }

  // ---------------------------------------------------------------- agreement with the per-host check

  /** The hosts of a model that the availability check accepts for a window. */
  function AvailableOfModel(hosts: seq<Host>, rows: seq<Reservation>, model: string, start: Time, end: Time)
    : seq<Host>
  {
    Filter(hosts, AvailableTest(hosts, rows, model, start, end))
  }

  function AvailableTest(hosts: seq<Host>, rows: seq<Reservation>, model: string, start: Time, end: Time)
    : Host -> bool
  {
    (h: Host) => h.model == model && Available(hosts, rows, h.name, start, end)
  }

  /** A sum over the usable hosts of a model counts the hosts that are usable, of the model, and pass the test. */
  lemma {:induction false} SumCaseCounts(hosts: seq<Host>, model: string, test: Host -> bool, keep: Host -> bool)
    requires forall h :: h in hosts ==> (keep(h) <==> h.Usable() && h.model == model && test(h))
    ensures SumCase(Filter(UsableHosts(hosts), OfModel(model)), test) == |Filter(hosts, keep)|
  {
    if hosts != [] {
      assert hosts[0] in hosts;
      SumCaseCounts(hosts[1..], model, test, keep);
    }
  }

  /** A proper window overlaps no reservation of a usable host exactly when the host is available for it. */
  lemma NoOverlapMeansAvailable(hosts: seq<Host>, rows: seq<Reservation>, h: Host, start: Time, end: Time)
    requires DistinctNames(hosts) && h in hosts && h.Usable() && Ordered(rows) && start < end
    ensures !HasOverlap(rows, h.name, start, end) <==> Available(hosts, rows, h.name, start, end)
  {
    FindsItself(hosts, h);
    forall r | r in rows
      ensures Blocks(r, start, end) <==> r.start < end && start < r.end
    {
      BlocksMeansSharedInstant(r, start, end);
    }
  }

  lemma NotScheduledMeansAvailable(hosts: seq<Host>, rows: seq<Reservation>, h: Host, now: Time)
    requires DistinctNames(hosts) && h in hosts && h.Usable()
    ensures !IsScheduled(rows, h.name, now) <==> Available(hosts, rows, h.name, now, now)
  {
    FindsItself(hosts, h);
  }

  lemma WindowCount(hosts: seq<Host>, rows: seq<Reservation>, model: string, start: Time, end: Time)
    requires DistinctNames(hosts) && Ordered(rows) && start < end
    ensures SumCase(Filter(UsableHosts(hosts), OfModel(model)), NoOverlap(rows, start, end))
            == |AvailableOfModel(hosts, rows, model, start, end)|
  {
    var keep := AvailableTest(hosts, rows, model, start, end);
    forall h | h in hosts
      ensures keep(h) <==> h.Usable() && h.model == model && !HasOverlap(rows, h.name, start, end)
    {
      FindsItself(hosts, h);
      if h.Usable() {
        NoOverlapMeansAvailable(hosts, rows, h, start, end);
      }
    }
    SumCaseCounts(hosts, model, NoOverlap(rows, start, end), keep);
  }

  lemma {:induction false} SumCaseComplement(group: seq<Host>, test: Host -> bool, other: Host -> bool)
    requires forall h :: h in group ==> (other(h) <==> !test(h))
    ensures SumCase(group, test) + SumCase(group, other) == |group|
  {
    if group != [] {
      assert group[0] in group;
      SumCaseComplement(group[1..], test, other);
    }
  }

  lemma {:induction false} SumCaseMonotone(group: seq<Host>, test: Host -> bool, weaker: Host -> bool)
    requires forall h :: h in group && test(h) ==> weaker(h)
    ensures SumCase(group, test) <= SumCase(group, weaker)
  {
    if group != [] {
      assert group[0] in group;
      SumCaseMonotone(group[1..], test, weaker);
    }
  }

  /**
   Main result: the summary counts exactly the hosts the per-host check accepts on the two windows, total minus
   scheduled counts those free at the instant, and the four-week count never exceeds the two-week count.
   */
  lemma SummaryAgreesWithCheck(hosts: seq<Host>, rows: seq<Reservation>, model: string,
                               now: Time, start: Time, end2w: Time, end4w: Time)
    requires DistinctNames(hosts) && Ordered(rows) && start < end2w <= end4w
    ensures var s := SummaryOf(hosts, rows, model, now, start, end2w, end4w);
            && s.avail2w == |AvailableOfModel(hosts, rows, model, start, end2w)|
            && s.avail4w == |AvailableOfModel(hosts, rows, model, start, end4w)|
            && s.total - s.scheduled == |AvailableOfModel(hosts, rows, model, now, now)|
            && s.avail4w <= s.avail2w <= s.total
  {
    WindowCount(hosts, rows, model, start, end2w);
    WindowCount(hosts, rows, model, start, end4w);
    InstantCount(hosts, rows, model, now);
    var group := Filter(UsableHosts(hosts), OfModel(model));
    SumCaseMonotone(group, NoOverlap(rows, start, end4w), NoOverlap(rows, start, end2w));
    SumCaseComplement(group, NoOverlap(rows, start, end2w), (h: Host) => HasOverlap(rows, h.name, start, end2w));
  }

  lemma InstantCount(hosts: seq<Host>, rows: seq<Reservation>, model: string, now: Time)
    requires DistinctNames(hosts)
    ensures var group := Filter(UsableHosts(hosts), OfModel(model));
            |group| - SumCase(group, ScheduledNow(rows, now))
            == |AvailableOfModel(hosts, rows, model, now, now)|
  {
    var group := Filter(UsableHosts(hosts), OfModel(model));
    var keep := AvailableTest(hosts, rows, model, now, now);
    forall h | h in hosts
      ensures keep(h) <==> h.Usable() && h.model == model && !IsScheduled(rows, h.name, now)
    {
      FindsItself(hosts, h);
      if h.Usable() {
        NotScheduledMeansAvailable(hosts, rows, h, now);
      }
    }
    var free := (h: Host) => !IsScheduled(rows, h.name, now);
    SumCaseCounts(hosts, model, free, keep);
    SumCaseComplement(group, ScheduledNow(rows, now), free);
  }

  /** For a point window the two tests differ on exactly the reservations that start at that instant. */
  lemma PointWindowsDiffer(r: Reservation, t: Time)
    requires r.start <= r.end
    ensures (Blocks(r, t, t) <==> (r.start < t && t < r.end)) <==> !(r.start == t < r.end)
  {
  }

  // ---------------------------------------------------------------- the groups

  function SumTotals(summary: seq<ModelSummary>): nat {
    if summary == [] then 0 else summary[0].total + SumTotals(summary[1..])
  }

  lemma {:induction false} FilterTwice(hosts: seq<Host>, model: string, other: string)
    requires model != other
    ensures Filter(Filter(hosts, NotOfModel(other)), OfModel(model)) == Filter(hosts, OfModel(model))
  {
    if hosts != [] {
      FilterTwice(hosts[1..], model, other);
    }
  }

  lemma {:induction false} FilterSplits(hosts: seq<Host>, model: string)
    ensures |Filter(hosts, OfModel(model))| + |Filter(hosts, NotOfModel(model))| == |hosts|
  {
    if hosts != [] {
      FilterSplits(hosts[1..], model);
    }
  }

  function GroupSizes(hosts: seq<Host>, models: seq<string>): nat {
    if models == [] then 0 else |Filter(hosts, OfModel(models[0]))| + GroupSizes(hosts, models[1..])
  }

  lemma {:induction false} GroupSizesWithout(hosts: seq<Host>, other: string, models: seq<string>)
    requires other !in models
    ensures GroupSizes(Filter(hosts, NotOfModel(other)), models) == GroupSizes(hosts, models)
  {
    if models != [] {
      FilterTwice(hosts, models[0], other);
      GroupSizesWithout(hosts, other, models[1..]);
    }
  }

  lemma {:induction false} GroupsCoverHosts(hosts: seq<Host>)
    ensures GroupSizes(hosts, Models(hosts)) == |hosts|
    decreases |hosts|
  {
    if hosts != [] {
      var first := hosts[0].model;
      var rest := Filter(hosts[1..], NotOfModel(first));
      assert Filter(hosts, NotOfModel(first)) == rest;
      assert Models(hosts)[1..] == Models(rest);
      GroupsCoverHosts(rest);
      GroupSizesWithout(hosts, first, Models(rest));
      FilterSplits(hosts, first);
    }
  }

  /** Every usable host is in exactly one group of the summary. */
  lemma TotalsCoverUsableHosts(hosts: seq<Host>, rows: seq<Reservation>, now: Time, start: Time, end2w: Time,
                               end4w: Time)
    ensures SumTotals(AvailabilitySummary(hosts, rows, now, start, end2w, end4w)) == |UsableHosts(hosts)|
  {
    var usable := UsableHosts(hosts);
    GroupsCoverHosts(usable);
    SumOfGroupTotals(hosts, rows, now, start, end2w, end4w, Models(usable));
  }

  lemma {:induction false} SumOfGroupTotals(hosts: seq<Host>, rows: seq<Reservation>, now: Time, start: Time,
                                            end2w: Time, end4w: Time, models: seq<string>)
    ensures SumTotals(seq(|models|, i requires 0 <= i < |models| =>
                            SummaryOf(hosts, rows, models[i], now, start, end2w, end4w)))
            == GroupSizes(UsableHosts(hosts), models)
  {
    if models != [] {
      var all := seq(|models|, i requires 0 <= i < |models| =>
                       SummaryOf(hosts, rows, models[i], now, start, end2w, end4w));
      var rest := models[1..];
      assert all[1..] == seq(|rest|, i requires 0 <= i < |rest| =>
                               SummaryOf(hosts, rows, rest[i], now, start, end2w, end4w));
      SumOfGroupTotals(hosts, rows, now, start, end2w, end4w, rest);
    }
  }
}
