/**
 The reconciler that makes Foreman's host ownership follow the current reservations: cloud by cloud, hosts no
 longer reserved go back to the administrator and newly reserved ones to the cloud's user.
 */
module ForemanHeal {
  import opened Wrappers
  import opened Reservations
  import Moves

  datatype Owner = Admin | CloudUser(cloud: CloudName) | Someone(id: nat)

  /** What the reconciler reads: it does not change while it runs. */
  datatype Snapshot = Snapshot(
    hosts: seq<Host>, rows: seq<Reservation>, assignments: seq<Assignment>, ignored: set<CloudName>, now: Time)
  {
    predicate Processed(cloud: CloudName) {
      ActiveOf(assignments, cloud).Some? && cloud !in ignored
    }

    function Current(cloud: CloudName): seq<Reservation> {
      Moves.VisibleCurrent(hosts, rows, assignments, cloud, now)
    }

    /** The hosts currently reserved in a cloud. */
    function Reserved(cloud: CloudName): set<HostName> {
      set r | r in Current(cloud) :: r.host
    }
  }

  /** The first processed cloud of a list in which the host is currently reserved. */
  function Claimant(snapshot: Snapshot, clouds: seq<CloudName>, host: HostName): (r: Option<CloudName>)
    ensures r.Some? ==> r.value in clouds && snapshot.Processed(r.value) && host in snapshot.Reserved(r.value)
    ensures r.None? ==> forall c :: c in clouds && snapshot.Processed(c) ==> host !in snapshot.Reserved(c)
  {
    if clouds == [] then None
    else if snapshot.Processed(clouds[0]) && host in snapshot.Reserved(clouds[0]) then Some(clouds[0])
    else Claimant(snapshot, clouds[1..], host)
  }

  /** A host's owner after a pass over the clouds. */
  function HealedOwner(snapshot: Snapshot, clouds: seq<CloudName>, host: HostName, owner: Owner): Owner {
    if Claimant(snapshot, clouds, host).Some? then CloudUser(Claimant(snapshot, clouds, host).value)
    else if owner.CloudUser? && owner.cloud in clouds && snapshot.Processed(owner.cloud) then Admin
    else owner
  }

  function Healed(snapshot: Snapshot, clouds: seq<CloudName>, owners: map<HostName, Owner>): map<HostName, Owner> {
    map h | h in owners :: HealedOwner(snapshot, clouds, h, owners[h])
  }

  /** The owners after one cloud has been processed. */
  function AfterCloud(snapshot: Snapshot, cloud: CloudName, owners: map<HostName, Owner>): map<HostName, Owner> {
    map h | h in owners ::
      if h in snapshot.Reserved(cloud) then CloudUser(cloud)
      else if owners[h] == CloudUser(cloud) then Admin
      else owners[h]
  }

  function OwnedBy(owners: map<HostName, Owner>, cloud: CloudName): set<HostName> {
    set h | h in owners && owners[h] == CloudUser(cloud)
  }

  /** Each processed cloud owns exactly its currently reserved hosts. */
  predicate Settled(snapshot: Snapshot, clouds: seq<CloudName>, owners: map<HostName, Owner>) {
    forall c :: c in clouds && snapshot.Processed(c) ==> OwnedBy(owners, c) == snapshot.Reserved(c)
  }

  /** Foreman knows every host that is currently reserved in a processed cloud. */
  predicate KnowsReserved(snapshot: Snapshot, clouds: seq<CloudName>, owners: map<HostName, Owner>) {
    forall c :: c in clouds && snapshot.Processed(c) ==> snapshot.Reserved(c) <= owners.Keys
  }

  // ---------------------------------------------------------------- no host is current in two clouds

  lemma ReservedInOneCloud(snapshot: Snapshot, host: HostName, c: CloudName, d: CloudName)
    requires Disjoint(snapshot.rows) && host in snapshot.Reserved(c) && host in snapshot.Reserved(d)
    ensures c == d
  {
    var r :| r in snapshot.Current(c) && r.host == host;
    var s :| s in snapshot.Current(d) && s.host == host;
    var i :| 0 <= i < |snapshot.rows| && snapshot.rows[i] == r;
    var j :| 0 <= j < |snapshot.rows| && snapshot.rows[j] == s;
    DisjointMeansOneCurrentPerHost(snapshot.rows);
  }

  lemma ClaimantIsTheReservingCloud(snapshot: Snapshot, clouds: seq<CloudName>, host: HostName, c: CloudName)
    requires Disjoint(snapshot.rows) && c in clouds && snapshot.Processed(c) && host in snapshot.Reserved(c)
    ensures Claimant(snapshot, clouds, host) == Some(c)
  {
    ReservedInOneCloud(snapshot, host, c, Claimant(snapshot, clouds, host).value);
  }

  // ---------------------------------------------------------------- one pass

  class Foreman {
    var owners: map<HostName, Owner>

    constructor (owners: map<HostName, Owner>)
      ensures this.owners == owners
    {
      this.owners := owners;
    }

    /** Hands the given hosts over, one request each. */
    method HandOver(names: set<HostName>, owner: Owner) returns (requests: nat)
      requires names <= owners.Keys
      modifies this`owners
      ensures owners == map h | h in old(owners) :: if h in names then owner else old(owners)[h]
      ensures requests == 0 <==> names == {}
    {
      requests := 0;
      var left := names;
      while left != {}
        invariant left <= names
        invariant owners == map h | h in old(owners) :: if h in names - left then owner else old(owners)[h]
        invariant requests == 0 <==> left == names
        decreases left
      {
        var h :| h in left;
        owners := owners[h := owner];
        requests := requests + 1;
        left := left - {h};
      }
    }

    /** One cloud: hosts owned but not reserved go to the administrator, reserved but not owned to the cloud. */
    method HealCloud(snapshot: Snapshot, cloud: CloudName) returns (requests: nat)
      requires snapshot.Processed(cloud) && snapshot.Reserved(cloud) <= owners.Keys
      modifies this`owners
      ensures owners == AfterCloud(snapshot, cloud, old(owners))
      ensures requests == 0 <==> OwnedBy(old(owners), cloud) == snapshot.Reserved(cloud)
    {
      var cloudHosts := OwnedBy(owners, cloud);
      var current := snapshot.Current(cloud);
      if current != [] {
        var reserved := snapshot.Reserved(cloud);
        var removed := HandOver(cloudHosts - reserved, Admin);
        var added := HandOver(reserved - cloudHosts, CloudUser(cloud));
        assert cloudHosts - reserved == {} && reserved - cloudHosts == {} <==> cloudHosts == reserved;
        requests := removed + added;
      } else {
        assert snapshot.Reserved(cloud) == {};
        requests := HandOver(cloudHosts, Admin);
      }
    }

    method Rbac(snapshot: Snapshot, clouds: seq<CloudName>) returns (requests: nat)
      requires Disjoint(snapshot.rows) && Distinct(clouds) && KnowsReserved(snapshot, clouds, owners)
      modifies this`owners
      ensures owners == Healed(snapshot, clouds, old(owners))
      ensures requests == 0 <==> Settled(snapshot, clouds, old(owners))
    {
      requests := 0;
      var i := 0;
      while i < |clouds|
        invariant 0 <= i <= |clouds|
        invariant owners == Healed(snapshot, clouds[..i], old(owners))
        invariant requests == 0 <==> Settled(snapshot, clouds[..i], old(owners))
      {
        var cloud := clouds[i];
        HealedStep(snapshot, clouds, i, old(owners));
        SettledStep(snapshot, clouds, i, old(owners));
        if snapshot.Processed(cloud) {
          var more := HealCloud(snapshot, cloud);
          requests := requests + more;
        }
        i := i + 1;
      }
      assert clouds[..i] == clouds;
    }
  }

  lemma ClaimantStep(snapshot: Snapshot, clouds: seq<CloudName>, i: nat, host: HostName)
    requires Disjoint(snapshot.rows) && i < |clouds|
    ensures Claimant(snapshot, clouds[..i + 1], host)
            == if snapshot.Processed(clouds[i]) && host in snapshot.Reserved(clouds[i]) then Some(clouds[i])
               else Claimant(snapshot, clouds[..i], host)
  {
    var before, after := Claimant(snapshot, clouds[..i], host), Claimant(snapshot, clouds[..i + 1], host);
    assert clouds[..i + 1] == clouds[..i] + [clouds[i]];
    if snapshot.Processed(clouds[i]) && host in snapshot.Reserved(clouds[i]) {
      ClaimantIsTheReservingCloud(snapshot, clouds[..i + 1], host, clouds[i]);
    } else if before.Some? {
      ClaimantIsTheReservingCloud(snapshot, clouds[..i + 1], host, before.value);
    } else {
      assert forall c :: c in clouds[..i + 1] ==> c in clouds[..i] || c == clouds[i];
    }
  }

  lemma HealedOwnerStep(snapshot: Snapshot, clouds: seq<CloudName>, i: nat, host: HostName, owner: Owner)
    requires Disjoint(snapshot.rows) && Distinct(clouds) && i < |clouds|
    ensures var now := HealedOwner(snapshot, clouds[..i], host, owner);
            HealedOwner(snapshot, clouds[..i + 1], host, owner)
            == if !snapshot.Processed(clouds[i]) then now
               else if host in snapshot.Reserved(clouds[i]) then CloudUser(clouds[i])
               else if now == CloudUser(clouds[i]) then Admin
               else now
  {
    ClaimantStep(snapshot, clouds, i, host);
    assert clouds[..i + 1] == clouds[..i] + [clouds[i]] && clouds[i] !in clouds[..i];
  }

  /** One more cloud of the pass, in terms of the owners before the pass. */
  lemma HealedStep(snapshot: Snapshot, clouds: seq<CloudName>, i: nat, owners: map<HostName, Owner>)
    requires Disjoint(snapshot.rows) && Distinct(clouds) && i < |clouds|
    ensures var now := Healed(snapshot, clouds[..i], owners);
            Healed(snapshot, clouds[..i + 1], owners)
            == if snapshot.Processed(clouds[i]) then AfterCloud(snapshot, clouds[i], now) else now
  {
    var cloud, now := clouds[i], Healed(snapshot, clouds[..i], owners);
    forall h | h in owners
      ensures HealedOwner(snapshot, clouds[..i + 1], h, owners[h])
              == if !snapshot.Processed(cloud) then now[h] else AfterCloud(snapshot, cloud, now)[h]
    {
      HealedOwnerStep(snapshot, clouds, i, h, owners[h]);
    }
  }

  lemma SettledStep(snapshot: Snapshot, clouds: seq<CloudName>, i: nat, owners: map<HostName, Owner>)
    requires i < |clouds|
    ensures var now := Healed(snapshot, clouds[..i], owners);
            Settled(snapshot, clouds[..i + 1], owners) <==>
            && Settled(snapshot, clouds[..i], owners)
            && (snapshot.Processed(clouds[i]) ==> OwnedBy(now, clouds[i]) == snapshot.Reserved(clouds[i]))
  {
    assert clouds[..i + 1] == clouds[..i] + [clouds[i]];
    if Settled(snapshot, clouds[..i], owners) {
      SettledIsHealed(snapshot, clouds[..i], owners);
    }
  }

  /** Settled owners are left as they are. */
  lemma SettledIsHealed(snapshot: Snapshot, clouds: seq<CloudName>, owners: map<HostName, Owner>)
    requires Settled(snapshot, clouds, owners)
    ensures Healed(snapshot, clouds, owners) == owners
  {
    forall h | h in owners
      ensures HealedOwner(snapshot, clouds, h, owners[h]) == owners[h]
    {
      var claimant := Claimant(snapshot, clouds, h);
      assert owners[h].CloudUser? ==> h in OwnedBy(owners, owners[h].cloud);
      if claimant.Some? {
        assert h in OwnedBy(owners, claimant.value);
      }
    }
  }

  // ---------------------------------------------------------------- what a pass achieves

  /** Main result: after a pass each processed cloud owns exactly its reserved hosts; a second pass changes nothing. */
  lemma PassSettles(snapshot: Snapshot, clouds: seq<CloudName>, owners: map<HostName, Owner>)
    requires Disjoint(snapshot.rows) && KnowsReserved(snapshot, clouds, owners)
    ensures var healed := Healed(snapshot, clouds, owners);
            Settled(snapshot, clouds, healed) && Healed(snapshot, clouds, healed) == healed
  {
    var healed := Healed(snapshot, clouds, owners);
    forall c | c in clouds && snapshot.Processed(c)
      ensures OwnedBy(healed, c) == snapshot.Reserved(c)
    {
      forall h | h in healed
        ensures h in OwnedBy(healed, c) <==> h in snapshot.Reserved(c)
      {
        if h in snapshot.Reserved(c) {
          ClaimantIsTheReservingCloud(snapshot, clouds, h, c);
        }
      }
    }
    SettledIsHealed(snapshot, clouds, healed);
  }

  lemma SameClaimant(snapshot: Snapshot, clouds: seq<CloudName>, shuffled: seq<CloudName>, host: HostName)
    requires Disjoint(snapshot.rows) && forall c :: c in clouds <==> c in shuffled
    ensures Claimant(snapshot, shuffled, host) == Claimant(snapshot, clouds, host)
  {
    var claimant := Claimant(snapshot, clouds, host);
    if claimant.Some? {
      ClaimantIsTheReservingCloud(snapshot, shuffled, host, claimant.value);
    }
  }

  /** The order of the clouds does not matter. */
  lemma PassIsOrderIndependent(snapshot: Snapshot, clouds: seq<CloudName>, shuffled: seq<CloudName>,
                               owners: map<HostName, Owner>)
    requires Disjoint(snapshot.rows) && forall c :: c in clouds <==> c in shuffled
    ensures Healed(snapshot, shuffled, owners) == Healed(snapshot, clouds, owners)
  {
    forall h | h in owners
      ensures HealedOwner(snapshot, shuffled, h, owners[h]) == HealedOwner(snapshot, clouds, h, owners[h])
    {
      SameClaimant(snapshot, clouds, shuffled, h);
    }
  }

  /** A host that no cloud claims and that no processed cloud owned keeps its owner. */
  lemma PassTouchesNothingElse(snapshot: Snapshot, clouds: seq<CloudName>, owners: map<HostName, Owner>, host: HostName)
    requires host in owners && Healed(snapshot, clouds, owners)[host] != owners[host]
    ensures (exists c :: c in clouds && snapshot.Processed(c) && host in snapshot.Reserved(c)) ||
            (owners[host].CloudUser? && owners[host].cloud in clouds && snapshot.Processed(owners[host].cloud)
             && host !in snapshot.Reserved(owners[host].cloud))
  {
  }
}
