/** One mutation as the driver runs it against a backend, from the stateless
    checks to the publish, and the protocol steps it amounts to. */
module Driver {
  import opened Options
  import opened Records
  import opened Versions
  import opened Validate
  import opened Identifiers
  import opened Slots
  import opened Protocol
  import opened Stores
  import Atmis
  import Interleavings
  import Orders

  datatype Applied = Applied(slot: Slot, ending: Ending)

  /** Steps 9 and 10: stage, then publish. */
  function Publishing(operation: Operation, slot: Slot, successor: Successor): Applied {
    if successor.payload.None? then Finished(operation, slot, slot, successor)
    else
      var payload := successor.payload.value;
      var staged := WriteStage(slot, payload.version, operation.key, slot.head, MarkerOf(operation, payload.version), payload);
      if staged.error.Some? then Applied(slot, WriteRefused(staged.error.value))
      else Finished(operation, slot, staged.slot, successor)
  }

  function Finished(operation: Operation, read: Slot, slot: Slot, successor: Successor): Applied {
    var r := PublishStaged(operation, slot, read.head, successor);
    if r.error.Some? then Applied(slot, WriteRefused(r.error.value)) else Applied(r.slot, PublishedAs(successor.head.state))
  }

  /** What a mutation does that nothing interleaves with. */
  function RunAlone(index: Index, slot: Slot, operation: Operation, seen: nat): Applied {
    if operation.key in slot.operations then Applied(slot, Replayed(operation, slot.operations[operation.key]))
    else
      match Load(index, slot, slot.head, seen)
      case Loaded(_, _, current) =>
        (match Prepare(operation, slot, slot.head, seen, current)
         case Prepared(_, _, successor) => Publishing(operation, slot, successor)
         case Ended(ending) => Applied(slot, ending)
         case _ => Applied(slot, Corrupt))
      case Ended(ending) => Applied(slot, ending)
      case _ => Applied(slot, if KindOf(slot.head) == ActiveKind then Corrupt else HeadGone)
  }

  /** Stored versions are versions: the records hold them as such. */
  ghost predicate HeadTyped(head: Option<Head>) {
    head.Some? ==> (head.value.state.Active? ==> VersionOk(head.value.state.version))
  }

  /** Every call reads or writes the backend once, in the order of the steps. */
  method Apply(backend: Atmis.Backend, operation: Operation) returns (refusal: Option<Refusal>, ending: Ending)
    requires backend.Valid() && IdentityOk(operation.index) && KeyOk(operation.key)
    requires HeadTyped(SlotIn(backend.All(), operation.index).head)
    modifies backend
    ensures backend.Valid()
    ensures refusal == CheckChange(operation.change)
    ensures refusal.Some? ==> backend.All() == old(backend.All())
    ensures refusal.None? ==>
      Applied(SlotIn(backend.All(), operation.index), ending)
        == RunAlone(operation.index, old(SlotIn(backend.All(), operation.index)), operation, 0)
    ensures forall other | IdentityOk(other) && other != operation.index ::
      SlotIn(backend.All(), other) == old(SlotIn(backend.All(), other))
  {
    hide *;
    var index := operation.index;
    ghost var slot := SlotIn(backend.All(), index);
    ending := Corrupt;
    refusal := CheckChange(operation.change);
    if refusal.Some? {
      return;
    }
    RunAloneIs(index, slot, operation, 0);
    LoadIs(index, slot, slot.head, 0);
    var head := backend.ReadHead(index);
    var recorded := backend.ReadOperation(index, operation.key);
    if recorded.Some? {
      ending := Replayed(operation, recorded.value);
      return;
    }
    var current: Option<Current> := None;
    if head.Some? && head.value.identity != index {
      return;
    }
    if head.Some? && head.value.state.Active? {
      TypedVersion(head);
      var version := head.value.state.version;
      var payload := backend.ReadVersion(index, version);
      if payload.None? {
        var again := backend.ReadHead(index);
        ending := if KindOf(again) == ActiveKind then Corrupt else HeadGone;
        return;
      }
      if !Decodes(index, version, payload.value) || payload.value.config != head.value.config {
        return;
      }
      current := Some(Current(head.value, payload.value));
    }
    PrepareIs(operation, slot, 0, current);
    var forbidden := Permit(operation, head);
    if forbidden.Some? {
      ending := NotPermitted(forbidden.value);
      return;
    }
    var staged := backend.ReadStaging(index);
    if staged.Some? {
      ending := FoundStaged(staged.value.0);
      return;
    }
    var built := SuccessorOf(operation, current);
    if built.Err? {
      ending := BuildRefused(built.refusal);
      return;
    }
    LoadedVersion(index, slot, current);
    BuiltVersion(operation, current);
    ending := StageAndPublish(backend, operation, head, built.value);
  }

  /** A plan for the versions a destroy removes. */
  function VersionList(last: nat): (r: seq<nat>)
    ensures Orders.Elements(r) == VersionSet(last)
    ensures forall v | v in r :: 1 <= v <= last
  {
    var r := seq(last, i requires 0 <= i < last => i + 1);
    ListsAll(r, last);
    r
  }

  lemma ListsAll(r: seq<nat>, last: nat)
    requires |r| == last && forall i | 0 <= i < last :: r[i] == i + 1
    ensures Orders.Elements(r) == VersionSet(last)
  {
    forall v: nat ensures v in Orders.Elements(r) <==> v in VersionSet(last) {
      if Counted(v, last) {
        assert r[v - 1] == v;
      }
    }
  }

  method StageAndPublish(backend: Atmis.Backend, operation: Operation, head: Option<Head>, successor: Successor)
    returns (ending: Ending)
    requires backend.Valid() && IdentityOk(operation.index) && KeyOk(operation.key)
    requires head == SlotIn(backend.All(), operation.index).head
    requires successor.payload.Some? ==> VersionOk(successor.payload.value.version)
    requires successor.payload.None? ==>
      head.Some? && successor.head.state.Destroyed? && successor.head.state.lastVersion <= U64_MAX
    modifies backend
    ensures backend.Valid()
    ensures Applied(SlotIn(backend.All(), operation.index), ending)
      == Publishing(operation, old(SlotIn(backend.All(), operation.index)), successor)
    ensures forall other | IdentityOk(other) && other != operation.index ::
      SlotIn(backend.All(), other) == old(SlotIn(backend.All(), other))
  {
    var index := operation.index;
    ghost var before := backend.All();
    ValidIsSound(backend);
    hide *;
    PublishingIs(operation, SlotIn(before, index), successor);
    if successor.payload.Some? {
      var payload := successor.payload.value;
      var marker := MarkerOf(operation, payload.version);
      StageActs(before, index, payload.version, operation.key, head, marker, payload);
      var error := backend.Stage(index, payload.version, operation.key, head, marker, payload);
      ActsParts(before, index, StageIn(before, index, payload.version, operation.key, head, marker, payload),
                WriteStage(SlotIn(before, index), payload.version, operation.key, head, marker, payload));
      if error.Some? {
        return WriteRefused(error.value);
      }
      ghost var between := backend.All();
      FinishedIs(operation, SlotIn(before, index), SlotIn(between, index), successor);
      PublishActs(between, index, payload.version, operation.key, head, marker, successor.head, successor.record);
      error := backend.Publish(index, payload.version, operation.key, head, marker, successor.head, successor.record);
      ActsParts(between, index,
                PublishIn(between, index, payload.version, operation.key, head, marker, successor.head, successor.record),
                WritePublish(SlotIn(between, index), payload.version, operation.key, head, marker, successor.head, successor.record));
      ending := if error.Some? then WriteRefused(error.value) else PublishedAs(successor.head.state);
    } else {
      var listed := VersionList(successor.head.state.lastVersion);
      ListedOk(listed);
      FinishedIs(operation, SlotIn(before, index), SlotIn(before, index), successor);
      DestroyActs(before, index, operation.key, head.value, successor.head, successor.record, Orders.Elements(listed));
      var error := backend.Destroy(index, operation.key, head.value, successor.head, successor.record, listed);
      ActsParts(before, index,
                DestroyIn(before, index, operation.key, head.value, successor.head, successor.record, Orders.Elements(listed)),
                WriteDestroy(SlotIn(before, index), operation.key, head.value, successor.head, successor.record, Orders.Elements(listed)));
      ending := if error.Some? then WriteRefused(error.value) else PublishedAs(successor.head.state);
    }
  }

  lemma ValidIsSound(backend: Atmis.Backend)
    requires backend.Valid()
    ensures Sound(backend.All())
  {
    hide Sound;
  }

  lemma ActsParts(s: Store, index: Index, wrote: Wrote, outcome: Outcome)
    requires ActsOn(s, index, wrote, outcome)
    ensures wrote.error == outcome.error && SlotIn(wrote.store, index) == outcome.slot && Sound(wrote.store)
    ensures forall other | IdentityOk(other) && other != index :: SlotIn(wrote.store, other) == SlotIn(s, other)
  {
    hide SlotIn, IdentityOk, Sound;
  }

  lemma ListedOk(listed: seq<nat>)
    requires forall v | v in listed :: 1 <= v <= U64_MAX
    ensures forall v | v in listed :: VersionOk(v)
    ensures forall v | v in Orders.Elements(listed) :: VersionOk(v)
  {
  }

  lemma PublishingIs(operation: Operation, slot: Slot, successor: Successor)
    ensures Publishing(operation, slot, successor)
      == if successor.payload.None? then Finished(operation, slot, slot, successor)
         else
           var payload := successor.payload.value;
           var staged := WriteStage(slot, payload.version, operation.key, slot.head, MarkerOf(operation, payload.version), payload);
           if staged.error.Some? then Applied(slot, WriteRefused(staged.error.value))
           else Finished(operation, slot, staged.slot, successor)
    ensures successor.payload.Some? ==>
      var payload := successor.payload.value;
      var staged := WriteStage(slot, payload.version, operation.key, slot.head, MarkerOf(operation, payload.version), payload);
      staged.error.Some? ==> staged.slot == slot
  {
    hide Finished, MarkerOf, FirstStaged;
  }

  lemma FinishedIs(operation: Operation, read: Slot, slot: Slot, successor: Successor)
    requires successor.payload.None? ==> read.head.Some? && successor.head.state.Destroyed?
    ensures var r :=
        if successor.payload.Some? then
          WritePublish(slot, successor.payload.value.version, operation.key, read.head,
                       MarkerOf(operation, successor.payload.value.version), successor.head, successor.record)
        else
          WriteDestroy(slot, operation.key, read.head.value, successor.head, successor.record,
                       VersionSet(successor.head.state.lastVersion));
      && (r.error.Some? ==> r.slot == slot)
      && Finished(operation, read, slot, successor)
         == if r.error.Some? then Applied(slot, WriteRefused(r.error.value)) else Applied(r.slot, PublishedAs(successor.head.state))
  {
    hide MarkerOf, VersionSet, FirstStaged;
  }

  lemma TypedVersion(head: Option<Head>)
    requires HeadTyped(head) && head.Some? && head.value.state.Active?
    ensures VersionOk(head.value.state.version)
  {
  }

  /** What loading finds, read by read. */
  lemma LoadIs(index: Index, slot: Slot, head: Option<Head>, seen: nat)
    ensures var phase := Load(index, slot, head, seen);
      && (head.Some? && head.value.identity != index ==> phase == Ended(Corrupt))
      && ((head.None? || head.value.identity == index) && !(head.Some? && head.value.state.Active?) ==>
            phase == Loaded(head, seen, None))
      && (head.Some? && head.value.identity == index && head.value.state.Active? ==>
            var version := head.value.state.version;
            if version !in slot.versions then phase == PayloadMissing(head, seen)
            else
              var payload := slot.versions[version];
              if !Decodes(index, version, payload) || payload.config != head.value.config then phase == Ended(Corrupt)
              else phase == Loaded(head, seen, Some(Current(head.value, payload))))
  {
    hide Decodes;
  }

  lemma PrepareIs(operation: Operation, slot: Slot, seen: nat, current: Option<Current>)
    ensures var phase := Prepare(operation, slot, slot.head, seen, current);
      var refusal, staged, built := Permit(operation, slot.head), FirstStaged(slot.staging), SuccessorOf(operation, current);
      phase == (if refusal.Some? then Ended(NotPermitted(refusal.value))
                else if staged.Some? then Ended(FoundStaged(staged.value))
                else if built.Err? then Ended(BuildRefused(built.refusal))
                else Prepared(slot.head, seen, built.value))
  {
    hide Permit, FirstStaged, SuccessorOf;
  }

  lemma RunAloneIs(index: Index, slot: Slot, operation: Operation, seen: nat)
    ensures var run, load := RunAlone(index, slot, operation, seen), Load(index, slot, slot.head, seen);
      if operation.key in slot.operations then run == Applied(slot, Replayed(operation, slot.operations[operation.key]))
      else
        && (load.PayloadMissing? ==> run == Applied(slot, if KindOf(slot.head) == ActiveKind then Corrupt else HeadGone))
        && (load.Ended? ==> run == Applied(slot, load.ending))
        && (load.Loaded? ==>
              var plan := Prepare(operation, slot, slot.head, seen, load.current);
              && (plan.Prepared? ==> run == Publishing(operation, slot, plan.successor))
              && (plan.Ended? ==> run == Applied(slot, plan.ending)))
  {
    hide Load, Prepare, Replayed, Publishing;
  }

  lemma LoadedVersion(index: Index, slot: Slot, current: Option<Current>)
    requires HeadTyped(slot.head) && Load(index, slot, slot.head, 0) == Loaded(slot.head, 0, current)
    ensures current.Some? ==> slot.head.Some? && VersionOk(current.value.payload.version)
  {
    hide DecoderAccepts;
  }

  lemma BuiltVersion(operation: Operation, current: Option<Current>)
    requires SuccessorOf(operation, current).Ok? && (current.Some? ==> VersionOk(current.value.payload.version))
    ensures var s := SuccessorOf(operation, current).value;
      && (s.payload.Some? ==> VersionOk(s.payload.value.version))
      && (s.payload.None? ==> current.Some? && s.head.state.Destroyed? && s.head.state.lastVersion <= U64_MAX)
  {
    hide InsertAll, RemoveAll, RebuildAll, SortedMembers, SortedIds, Listed, WithDropped, RetiredAll, IdentityOf;
  }

  // ---------- the same as protocol steps ----------

  /** `n` calls of one client with nothing between them. */
  ghost function Advances(index: Index, cell: Cell, id: nat, n: nat): (r: Cell)
    requires id in cell.clients
    ensures id in r.clients
  {
    if n == 0 then cell
    else
      var before := Advances(index, cell, id, n - 1);
      StillThere(index, before, id);
      AdvanceClient(index, before, id)
  }

  lemma StillThere(index: Index, cell: Cell, id: nat)
    requires id in cell.clients
    ensures id in AdvanceClient(index, cell, id).clients
  {
    hide Load, Prepare, Replayed, WriteStage, PublishStaged;
  }

  ghost predicate EndsAs(cell: Cell, id: nat, applied: Applied) {
    id in cell.clients && cell.slot == applied.slot && cell.clients[id].phase == Ended(applied.ending)
  }

  lemma {:induction false} EndedStays(index: Index, cell: Cell, id: nat, n: nat)
    requires id in cell.clients && cell.clients[id].phase.Ended?
    ensures Advances(index, cell, id, n) == cell
  {
    hide Load, Prepare, Replayed, WriteStage, PublishStaged;
    if n > 0 {
      EndedStays(index, cell, id, n - 1);
    }
  }

  lemma {:induction false} Further(index: Index, cell: Cell, id: nat, n: nat)
    requires id in cell.clients
    ensures id in AdvanceClient(index, cell, id).clients
    ensures Advances(index, cell, id, n + 1) == Advances(index, AdvanceClient(index, cell, id), id, n)
  {
    hide *;
    StillThere(index, cell, id);
    OneCall(index, cell, id, n + 1);
    NoCalls(index, cell, id);
    NoCalls(index, AdvanceClient(index, cell, id), id);
    if n > 0 {
      Further(index, cell, id, n - 1);
      OneCall(index, AdvanceClient(index, cell, id), id, n);
    }
  }

  lemma OneCall(index: Index, cell: Cell, id: nat, n: nat)
    requires id in cell.clients && n > 0
    ensures Advances(index, cell, id, n) == AdvanceClient(index, Advances(index, cell, id, n - 1), id)
  {
    hide AdvanceClient;
  }

  /** Publishing ends in the last call. */
  lemma LastCall(index: Index, cell: Cell, id: nat, read: Slot)
    requires id in cell.clients && cell.clients[id].phase.StagedBy? && cell.clients[id].phase.expected == read.head
    ensures EndsAs(AdvanceClient(index, cell, id), id,
                   Finished(cell.clients[id].operation, read, cell.slot, cell.clients[id].phase.successor))
  {
    hide PublishStaged;
    PublishRefused(cell.clients[id].operation, cell.slot, read.head, cell.clients[id].phase.successor);
  }

  lemma PublishRefused(operation: Operation, slot: Slot, expected: Option<Head>, successor: Successor)
    ensures var r := PublishStaged(operation, slot, expected, successor); r.error.Some? ==> r.slot == slot
  {
    hide MarkerOf, FirstStaged, VersionSet;
  }

  lemma LastTwoCalls(index: Index, cell: Cell, id: nat)
    requires id in cell.clients && cell.clients[id].phase.Prepared? && cell.clients[id].phase.expected == cell.slot.head
    ensures EndsAs(Advances(index, cell, id, 2), id,
                   Publishing(cell.clients[id].operation, cell.slot, cell.clients[id].phase.successor))
  {
    var Client(operation, Prepared(expected, seen, successor)) := cell.clients[id];
    PublishingIs(operation, cell.slot, successor);
    Further(index, cell, id, 1);
    var next := AdvanceClient(index, cell, id);
    Further(index, next, id, 0);
    hide Publishing, Finished, WriteStage, PublishStaged, MarkerOf, Advances;
    assert Advances(index, AdvanceClient(index, next, id), id, 0) == AdvanceClient(index, next, id) by { NoCalls(index, AdvanceClient(index, next, id), id); }
    if next.clients[id].phase.Ended? {
      EndedStays(index, next, id, 1);
    } else {
      LastCall(index, next, id, cell.slot);
    }
  }

  lemma NoCalls(index: Index, cell: Cell, id: nat)
    requires id in cell.clients
    ensures Advances(index, cell, id, 0) == cell
  {
  }

  /** Six calls of a client nobody interrupts do what the driver does. */
  lemma AloneIsSixCalls(index: Index, cell: Cell, id: nat)
    requires id in cell.clients && cell.clients[id].phase.Checked?
    ensures EndsAs(Advances(index, cell, id, 6), id,
                   RunAlone(index, cell.slot, cell.clients[id].operation, |cell.log|))
  {
    hide *;
    var operation, seen := cell.clients[id].operation, |cell.log|;
    RunAloneIs(index, cell.slot, operation, seen);
    LoadIs(index, cell.slot, cell.slot.head, seen);
    Further(index, cell, id, 5);
    Interleavings.AdvanceIs(index, cell, id);
    var read := AdvanceClient(index, cell, id);
    PhaseSet(cell, id, HeadRead(cell.slot.head, seen));
    Further(index, read, id, 4);
    Interleavings.AdvanceIs(index, read, id);
    var looked := AdvanceClient(index, read, id);
    if operation.key in cell.slot.operations {
      PhaseSet(read, id, Ended(Replayed(operation, cell.slot.operations[operation.key])));
      EndedStays(index, looked, id, 4);
      Ends(looked, id, RunAlone(index, cell.slot, operation, seen));
    } else {
      PhaseSet(read, id, NotReplayed(cell.slot.head, seen));
      Further(index, looked, id, 3);
      Interleavings.AdvanceIs(index, looked, id);
      PhaseSet(looked, id, Load(index, cell.slot, cell.slot.head, seen));
      AfterLoad(index, AdvanceClient(index, looked, id), id, operation, seen);
    }
  }

  lemma PhaseSet(cell: Cell, id: nat, phase: Phase)
    requires id in cell.clients
    ensures var after := WithPhase(cell, id, phase);
      && after.slot == cell.slot && after.log == cell.log
      && id in after.clients && after.clients[id] == Client(cell.clients[id].operation, phase)
  {
  }

  lemma Ends(cell: Cell, id: nat, applied: Applied)
    requires id in cell.clients && cell.slot == applied.slot && cell.clients[id].phase == Ended(applied.ending)
    ensures EndsAs(cell, id, applied)
  {
  }

  lemma AfterLoad(index: Index, cell: Cell, id: nat, operation: Operation, seen: nat)
    requires id in cell.clients && operation.key !in cell.slot.operations
    requires cell.clients[id] == Client(operation, Load(index, cell.slot, cell.slot.head, seen))
    ensures EndsAs(Advances(index, cell, id, 3), id, RunAlone(index, cell.slot, operation, seen))
  {
    hide *;
    RunAloneIs(index, cell.slot, operation, seen);
    LoadIs(index, cell.slot, cell.slot.head, seen);
    var phase := cell.clients[id].phase;
    if phase.Ended? {
      EndedStays(index, cell, id, 3);
      Ends(cell, id, RunAlone(index, cell.slot, operation, seen));
    } else {
      Further(index, cell, id, 2);
      var next := AdvanceClient(index, cell, id);
      if phase.PayloadMissing? {
        MissingEnds(index, cell, id);
        EndedStays(index, next, id, 2);
        Ends(next, id, RunAlone(index, cell.slot, operation, seen));
      } else {
        Interleavings.AdvanceIs(index, cell, id);
        PrepareIs(operation, cell.slot, seen, phase.current);
        PhaseSet(cell, id, Prepare(operation, cell.slot, cell.slot.head, seen, phase.current));
        if next.clients[id].phase.Ended? {
          EndedStays(index, next, id, 2);
          Ends(next, id, RunAlone(index, cell.slot, operation, seen));
        } else {
          LastTwoCalls(index, next, id);
        }
      }
    }
  }

  lemma MissingEnds(index: Index, cell: Cell, id: nat)
    requires id in cell.clients && cell.clients[id].phase.PayloadMissing?
    ensures var next := AdvanceClient(index, cell, id);
      && next.slot == cell.slot && id in next.clients
      && next.clients[id].phase == Ended(if KindOf(cell.slot.head) == ActiveKind then Corrupt else HeadGone)
  {
  }
}
