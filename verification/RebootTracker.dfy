/** The reboot counter file on the host. */
module RebootTracker {
  import opened Base

  /** Contents of the file; absent before the first write. */
  datatype Record = Record(generation: nat, count: nat)

  const MAX_REBOOTS_PER_GENERATION := 5

  function CountFor(file: Option<Record>, generation: nat): nat {
    if file.Some? && file.value.generation == generation then file.value.count else 0
  }

  /** What has been asked of the file, across process restarts and reboots of the node. */
  datatype Write = Rebooted(generation: nat) | Reset(generation: nat)

  /** How many reboots of a generation were counted since the last reset and since any other generation was. */
  function CountedSince(log: seq<Write>, generation: nat): nat {
    if log == [] || log[|log| - 1] != Rebooted(generation) then 0 else CountedSince(log[..|log| - 1], generation) + 1
  }

  lemma CountedSinceSnoc(log: seq<Write>, w: Write, generation: nat)
    ensures CountedSince(log + [w], generation) == if w == Rebooted(generation) then CountedSince(log, generation) + 1 else 0
  {
    assert (log + [w])[..|log|] == log;
  }

  /** One record is enough: it answers for every generation as the whole log would. */
  class Tracker {
    var file: Option<Record>
    ghost var log: seq<Write>

    ghost predicate Valid()
      reads this
    {
      forall g: nat :: CountFor(file, g) == CountedSince(log, g)
    }

    constructor ()
      ensures Valid() && file == None && log == []
    {
      file := None;
      log := [];
    }

    method GetRebootCount(generation: nat, readOk: bool) returns (r: Outcome<nat>)
      requires Valid()
      ensures r == if readOk then Ok(CountedSince(log, generation)) else Error
    {
      if !readOk {
        return Error;
      }
      if file.None? || file.value.generation != generation {
        assert CountFor(file, generation) == 0;
        return Ok(0);
      }
      assert CountFor(file, generation) == file.value.count;
      return Ok(file.value.count);
    }

    /** The reboot is on record, or nothing has changed. */
    method IncrementRebootCounter(generation: nat, ioOk: bool) returns (ok: bool)
      requires Valid()
      modifies this
      ensures Valid() && ok == ioOk
      ensures if ok then log == old(log) + [Rebooted(generation)] else log == old(log) && file == old(file)
      ensures ok ==> file == Some(Record(generation, CountedSince(log, generation)))
    {
      if !ioOk {
        return false;
      }
      var tracker := if file.None? || file.value.generation != generation then Record(generation, 0) else file.value;
      assert tracker.count == CountFor(file, generation);
      forall g: nat { CountedSinceSnoc(log, Rebooted(generation), g); }
      tracker := tracker.(count := tracker.count + 1);
      file := Some(tracker);
      log := log + [Rebooted(generation)];
      return true;
    }

    /** Afterwards no generation has a reboot on record. */
    method ResetRebootCounter(generation: nat, ioOk: bool) returns (ok: bool)
      requires Valid()
      modifies this
      ensures Valid() && ok == ioOk
      ensures if ok then log == old(log) + [Reset(generation)] else log == old(log) && file == old(file)
      ensures ok ==> (forall g: nat :: CountedSince(log, g) == 0) && file.Some? && file.value.generation == generation
    {
      if !ioOk {
        return false;
      }
      forall g: nat { CountedSinceSnoc(log, Reset(generation), g); }
      file := Some(Record(generation, 0));
      log := log + [Reset(generation)];
      return true;
    }
  }
}
