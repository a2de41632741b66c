/** Partition ownership of one gateway, after internal/bus/kafka.go.

    `Snapshot` is what ownershipMu protects and `Updated` what a new consumer-group generation, or
    the loss of one, does to it. The class is the imperative form. `Guarded` adds what other
    goroutines can observe while an update is under way: the revision is read without the lock.
  */
module Ownership {
  import opened Wrappers
  import opened GoStrings
  import opened Sequences

  datatype Error = MissingPartition(partition: int)

  datatype Snapshot = Snapshot(topic: seq<int>, owned: set<int>)

  /** The producer's and the gateway's common partitioner: any deterministic choice. */
  type Balancer = (string, seq<int>) -> int

  datatype Update = Install(partitions: seq<int>, assignments: seq<int>) | Clear

  const NOTHING := Snapshot([], {})

  function FirstMissing(partitions: seq<int>, assignments: seq<int>): (r: Option<int>)
    ensures r.None? <==> (forall a :: a in assignments ==> a in partitions)
    ensures r.Some? ==> r.value in assignments && r.value !in partitions
  {
    if assignments == [] then None
    else
      var first, rest := assignments[0], assignments[1..];
      assert assignments == [first] + rest && forall a :: a in assignments <==> a == first || a in rest;
      if first !in partitions then Some(first) else FirstMissing(partitions, rest)
  }

  function SetOf(s: seq<int>): (r: set<int>)
    ensures forall x :: x in r <==> x in s
  {
    if s == [] then {}
    else
      var first, rest := s[0], s[1..];
      assert s == [first] + rest;
      {first} + SetOf(rest)
  }

  lemma {:induction false} FirstMissingAt(partitions: seq<int>, assignments: seq<int>, i: nat)
    requires i < |assignments| && assignments[i] !in partitions
    requires forall j :: 0 <= j < i ==> assignments[j] in partitions
    ensures FirstMissing(partitions, assignments) == Some(assignments[i])
  {
    if i > 0 {
      FirstMissingAt(partitions, assignments[1..], i - 1);
    }
  }

  /** The effect of an update; an assignment outside the topic's partitions is refused. */
  function Updated(s: Snapshot, u: Update): Result<Snapshot, Error> {
    match u
    case Clear => Ok(s.(owned := {}))
    case Install(partitions, assignments) =>
      var missing := FirstMissing(partitions, assignments);
      if missing.Some? then Err(MissingPartition(missing.value))
      else Ok(Snapshot(partitions, SetOf(assignments)))
  }

  lemma InstallOne(s: Snapshot, partition: int)
    ensures Updated(s, Install([partition], [partition])) == Ok(Snapshot([partition], {partition}))
  {
    var one := [partition];
    assert one[1..] == [] && one[0] in one;
    assert FirstMissing(one, one).None? && SetOf(one) == {partition};
  }

  function PartitionForRoom(balance: Balancer, s: Snapshot, room: string): Option<int> {
    if TrimSpace(room) == "" || s.topic == [] then None
    else
      var partition := balance(room, s.topic);
      if partition in s.topic then Some(partition) else None
  }

  predicate OwnsRoom(balance: Balancer, s: Snapshot, room: string) {
    var partition := PartitionForRoom(balance, s, room);
    partition.Some? && partition.value in s.owned
  }

  predicate Legal(s: Snapshot) {
    forall p :: p in s.owned ==> p in s.topic
  }

  // ---------------------------------------------------------------------------------------------
  // The imperative form
  // ---------------------------------------------------------------------------------------------

  predicate StrictlyAscending(s: seq<int>) {
    forall i, j :: 0 <= i < j < |s| ==> s[i] < s[j]
  }

  function Insert(s: seq<int>, x: int): (r: seq<int>)
    requires StrictlyAscending(s) && x !in s
    ensures StrictlyAscending(r)
    ensures forall y :: y in r <==> y == x || y in s
  {
    if s == [] || x < s[0] then [x] + s
    else
      var rest := Insert(s[1..], x);
      assert forall i :: 0 <= i < |s[1..]| ==> s[0] < s[1..][i];
      assert forall i :: 0 <= i < |rest| ==> rest[i] == x || rest[i] in s[1..];
      [s[0]] + rest
  }

  class KafkaOwnership {
    var topicPartitions: seq<int>
    var assignedPartition: set<int>
    var ownershipRevision: nat
    const balance: Balancer

    function Current(): Snapshot
      reads this
    {
      Snapshot(topicPartitions, assignedPartition)
    }

    constructor (balance: Balancer)
      ensures Current() == NOTHING && ownershipRevision == 0 && this.balance == balance
    {
      topicPartitions, assignedPartition, ownershipRevision := [], {}, 0;
      this.balance := balance;
    }

    method SetPartitionOwnership(partitions: seq<int>, assignments: seq<int>) returns (r: Outcome<Error>)
      modifies this
      ensures var updated := Updated(old(Current()), Install(partitions, assignments));
              if updated.Ok? then
                r == Pass && Current() == updated.value && ownershipRevision == old(ownershipRevision) + 1
              else
                r == Fail(updated.error) && Current() == old(Current()) && ownershipRevision == old(ownershipRevision)
      ensures r.Pass? <==> forall p :: p in assignments ==> p in partitions
      ensures r.Pass? ==> topicPartitions == partitions && forall p :: p in assignedPartition <==> p in assignments
      ensures r.Fail? ==> exists i :: 0 <= i < |assignments| && r.error == MissingPartition(assignments[i])
                                      && assignments[i] !in partitions
                                      && forall j :: 0 <= j < i ==> assignments[j] in partitions
    {
      var available: set<int> := {};
      for i := 0 to |partitions|
        invariant forall p :: p in available <==> p in partitions[..i]
      {
        var partition := partitions[i];
        assert partitions[..i + 1] == partitions[..i] + [partition];
        available := available + {partition};
      }
      assert partitions[..|partitions|] == partitions;
      var owned: set<int> := {};
      for i := 0 to |assignments|
        invariant forall p :: p in owned <==> p in assignments[..i]
        invariant forall j :: 0 <= j < i ==> assignments[j] in partitions
      {
        var assignment := assignments[i];
        if assignment !in available {
          FirstMissingAt(partitions, assignments, i);
          return Fail(MissingPartition(assignment));
        }
        assert assignments[..i + 1] == assignments[..i] + [assignment];
        owned := owned + {assignment};
      }
      assert assignments[..|assignments|] == assignments;
      assert forall p :: p in owned <==> p in assignments;
      assert owned == SetOf(assignments);
      topicPartitions := partitions;
      assignedPartition := owned;
      ownershipRevision := ownershipRevision + 1;
      return Pass;
    }

    method ClearAssignedPartitions()
      modifies this
      ensures Updated(old(Current()), Clear) == Ok(Current())
      ensures assignedPartition == {} && topicPartitions == old(topicPartitions)
      ensures ownershipRevision == old(ownershipRevision) + 1
    {
      assignedPartition := {};
      ownershipRevision := ownershipRevision + 1;
    }

    method LookupPartition(roomID: string) returns (r: Option<int>)
      ensures r == PartitionForRoom(balance, Current(), roomID)
      ensures r.Some? <==> !Blank(roomID) && topicPartitions != [] && balance(roomID, topicPartitions) in topicPartitions
      ensures r.Some? ==> r.value == balance(roomID, topicPartitions)
    {
      TrimSpaceIsTrimmed(roomID);
      if TrimSpace(roomID) == "" || |topicPartitions| == 0 {
        return None;
      }
      var partition := balance(roomID, topicPartitions);
      for i := 0 to |topicPartitions|
        invariant partition !in topicPartitions[..i]
      {
        if partition == topicPartitions[i] {
          return Some(partition);
        }
      }
      return None;
    }

    method Owns(roomID: string) returns (owned: bool)
      ensures owned == OwnsRoom(balance, Current(), roomID)
      ensures owned <==> !Blank(roomID) && balance(roomID, topicPartitions) in topicPartitions
                         && balance(roomID, topicPartitions) in assignedPartition
    {
      var partition := LookupPartition(roomID);
      return partition.Some? && partition.value in assignedPartition;
    }

    /** An ordered copy of the assignments. */
    method AssignedPartitions() returns (partitions: seq<int>)
      ensures StrictlyAscending(partitions)
      ensures forall p :: p in partitions <==> p in assignedPartition
    {
      partitions := [];
      var remaining := assignedPartition;
      while remaining != {}
        invariant StrictlyAscending(partitions)
        invariant remaining <= assignedPartition
        invariant forall p :: p in partitions <==> p in assignedPartition - remaining
        decreases remaining
      {
        var partition := AnyElement(remaining);
        partitions := Insert(partitions, partition);
        remaining := remaining - {partition};
      }
    }
  }

  // ---------------------------------------------------------------------------------------------
  // What concurrent readers can see
  // ---------------------------------------------------------------------------------------------

  /** An update takes the lock and writes the fields, then raises the revision, then unlocks. */
  datatype Lock = Free | Written | Raised

  /** `history[r]` is the snapshot that the revision `r` stands for. */
  datatype Guarded = Guarded(current: Snapshot, revision: nat, lock: Lock, history: seq<Snapshot>)

  datatype Action = Write(update: Update) | Raise | Unlock

  const UNOWNED := Guarded(NOTHING, 0, Free, [NOTHING])

  predicate Enabled(g: Guarded, a: Action) {
    match a
    case Write(update) => g.lock.Free? && Updated(g.current, update).Ok?
    case Raise => g.lock.Written?
    case Unlock => g.lock.Raised?
  }

  function Apply(g: Guarded, a: Action): Guarded
    requires Enabled(g, a)
  {
    match a
    case Write(update) => g.(current := Updated(g.current, update).value, lock := Written)
    case Raise => g.(revision := g.revision + 1, lock := Raised, history := g.history + [g.current])
    case Unlock => g.(lock := Free)
  }

  ghost predicate Consistent(g: Guarded) {
    && |g.history| == g.revision + 1
    && (!g.lock.Written? ==> g.history[g.revision] == g.current)
    && Legal(g.current)
    && forall r :: 0 <= r <= g.revision ==> Legal(g.history[r])
  }

  lemma StaysConsistent(g: Guarded, a: Action)
    requires Consistent(g) && Enabled(g, a)
    ensures var g' := Apply(g, a);
            && Consistent(g') && g.revision <= g'.revision && g.history <= g'.history
            && (g'.revision == g.revision ==> g'.history == g.history)
  {
  }

  /** The state after a sequence of micro steps, and whether each was enabled in turn. */
  function After(actions: seq<Action>): Option<Guarded> {
    if actions == [] then Some(UNOWNED)
    else
      var g := After(Init(actions));
      if g.Some? && Enabled(g.value, Last(actions)) then Some(Apply(g.value, Last(actions))) else None
  }

  function Writes(actions: seq<Action>): nat {
    if actions == [] then 0
    else Writes(Init(actions)) + if Last(actions).Write? then 1 else 0
  }

  /** In every reachable state only partitions of the topic are assigned, and every installed set
      and every clear has raised, or is just about to raise, the revision. */
  lemma {:induction false} ReachableOwnership(actions: seq<Action>)
    requires After(actions).Some?
    ensures var g := After(actions).value;
            Consistent(g) && Legal(g.current) && g.revision + (if g.lock.Written? then 1 else 0) == Writes(actions)
  {
    if actions != [] {
      ReachableOwnership(Init(actions));
      StaysConsistent(After(Init(actions)).value, Last(actions));
    }
  }

  /** The accepted updates of a run of micro steps, in order. */
  function Updates(actions: seq<Action>): seq<Update> {
    if actions == [] then []
    else if Last(actions).Write? then Updates(Init(actions)) + [Last(actions).update]
    else Updates(Init(actions))
  }

  /** `after` is what the update makes of `before`: exactly the assignments given, or none. */
  ghost predicate Follows(before: Snapshot, u: Update, after: Snapshot) {
    match u
    case Install(partitions, assignments) =>
      after.topic == partitions && forall p :: p in after.owned <==> p in assignments
    case Clear => after.topic == before.topic && after.owned == {}
  }

  /** The first `n` snapshots after the initial one are what the first `n` updates make of it. */
  ghost predicate Recorded(history: seq<Snapshot>, updates: seq<Update>, n: nat) {
    && n <= |updates| && n < |history| && history[0] == NOTHING
    && forall r :: 0 <= r < n ==> Follows(history[r], updates[r], history[r + 1])
  }

  lemma RecordedLonger(history: seq<Snapshot>, updates: seq<Update>, n: nat, after: Snapshot)
    requires Recorded(history, updates, n) && |history| == n + 1 && n < |updates| && Follows(history[n], updates[n], after)
    ensures Recorded(history + [after], updates, n + 1)
  {
    var longer := history + [after];
    forall r | 0 <= r < n + 1
      ensures Follows(longer[r], updates[r], longer[r + 1])
    {
      if r < n {
        assert longer[r] == history[r] && longer[r + 1] == history[r + 1];
      }
    }
  }

  lemma UpdatedFollows(s: Snapshot, u: Update)
    requires Updated(s, u).Ok?
    ensures Follows(s, u, Updated(s, u).value)
  {
  }

  /** In every reachable state revision `r` stands for what the `r`-th accepted update has made of the
      snapshot before it, and an update that is being written is the next one. */
  lemma {:induction false} HistoryIsWhatWasWritten(actions: seq<Action>)
    requires After(actions).Some?
    ensures var g := After(actions).value;
            && |Updates(actions)| == g.revision + (if g.lock.Written? then 1 else 0)
            && Consistent(g) && Recorded(g.history, Updates(actions), g.revision)
            && (if g.lock.Written? then Follows(g.history[g.revision], Last(Updates(actions)), g.current)
                else g.current == g.history[g.revision])
  {
    if actions != [] {
      HistoryIsWhatWasWritten(Init(actions));
      var g, a := After(Init(actions)).value, Last(actions);
      StaysConsistent(g, a);
      match a
      case Write(update) => UpdatedFollows(g.current, update);
      case Raise => RecordedLonger(g.history, Updates(actions), g.revision, g.current);
      case Unlock =>
    }
  }

  // ---------------------------------------------------------------------------------------------
  // Exactly one owner
  // ---------------------------------------------------------------------------------------------

  /** The gateways see the same topic and their assignments are a partition of it. */
  ghost predicate Partitioned(gateways: seq<Snapshot>, topic: seq<int>) {
    && (forall i :: 0 <= i < |gateways| ==> gateways[i].topic == topic)
    && (forall i, j :: 0 <= i < j < |gateways| ==> gateways[i].owned !! gateways[j].owned)
    && (forall p :: p in topic ==> exists i :: 0 <= i < |gateways| && p in gateways[i].owned)
  }

  /** Every room whose key the producer sends to a partition of the topic has exactly one owner: the
      gateway to which that partition is assigned. */
  lemma ExactlyOneOwner(balance: Balancer, gateways: seq<Snapshot>, topic: seq<int>, room: string) returns (owner: nat)
    requires Partitioned(gateways, topic) && topic != [] && TrimSpace(room) != "" && balance(room, topic) in topic
    ensures owner < |gateways| && balance(room, topic) in gateways[owner].owned
    ensures forall i :: 0 <= i < |gateways| ==> (OwnsRoom(balance, gateways[i], room) <==> i == owner)
  {
    var partition := balance(room, topic);
    assert partition in topic;
    var i :| 0 <= i < |gateways| && partition in gateways[i].owned;
    owner := i;
    forall i | 0 <= i < |gateways| && i != owner
      ensures balance(room, topic) !in gateways[i].owned
    {
      assert if i < owner then gateways[i].owned !! gateways[owner].owned
             else gateways[owner].owned !! gateways[i].owned;
    }
  }
}
