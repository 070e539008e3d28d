/** The edge device: it calls the relay at most once for a command, whichever way the command arrives
  * and however often the device restarts on the same store file. */
module EdgeConsumer {
  import opened Common
  import opened Domain
  import opened Outbox
  import opened Repositories
  import System
  import Services

  // ---------------------------------------------------------------- one device

  /** A device's record and relay calls after it handled a command. */
  function OpenOnceOn(processed: map<nat, bool>, calls: seq<nat>, command: nat, answer: bool)
    : (map<nat, bool>, seq<nat>)
  {
    if command in processed then (processed, calls) else (processed[command := answer], calls + [command])
  }

  /** What the edge of the transition system says about one controller's device. */
  function RecordOf(processed: map<(Id, nat), bool>, controller: Id): map<nat, bool> {
    map k | k in processed && k.0 == controller :: k.1 := processed[k]
  }

  function CallsOf(calls: seq<(Id, nat)>, controller: Id): seq<nat> {
    if calls == [] then []
    else
      var n := |calls| - 1;
      var earlier := CallsOf(calls[..n], controller);
      if calls[n].0 == controller then earlier + [calls[n].1] else earlier
  }

  /** A handling step of the transition system does to each device what the device does when it handles the
    * command, or nothing: it skips a late pull and leaves other controllers' devices alone. */
  lemma DeviceRefinesStep(s: System.Sys, d: System.Delivery, answer: bool, now: Instant, controller: Id)
    ensures var after := System.HandleApply(s, d, answer, now).edge;
            var late := d.Pulled? && d.command < |s.db.commands| && s.db.commands[d.command].expiresAt.Some?
                        && s.db.commands[d.command].expiresAt.value <= now;
            (RecordOf(after.processed, controller), CallsOf(after.relayCalls, controller))
            == if d in s.edge.inbox && !late && d.controller == controller
               then OpenOnceOn(RecordOf(s.edge.processed, controller), CallsOf(s.edge.relayCalls, controller),
                               d.command, answer)
               else (RecordOf(s.edge.processed, controller), CallsOf(s.edge.relayCalls, controller))
  {
    var after := System.HandleApply(s, d, answer, now).edge;
    var key := (d.controller, d.command);
    if after != s.edge {
      assert after.relayCalls[..|after.relayCalls| - 1] == s.edge.relayCalls;
      var record := RecordOf(s.edge.processed, controller);
      if d.controller == controller {
        assert d.command !in record;
        assert RecordOf(after.processed, controller) == record[d.command := answer];
      } else {
        assert RecordOf(after.processed, controller) == record;
      }
    } else if d.controller == controller && key in s.edge.processed {
      assert d.command in RecordOf(s.edge.processed, controller);
    }
  }

  datatype RelayResult = RelayResult(command: nat, wasOpened: bool, deduplicated: bool)

  datatype ProcessOutcome = ProcessOutcome(
    command: nat, relayOpened: bool, deduplicated: bool, acked: bool, ackReplayed: bool, expired: bool)

  /** The physical relay with the log of its calls. */
  class Relay {
    var calls: seq<nat>

    constructor ()
      ensures calls == []
    {
      calls := [];
    }

    method Open(command: nat, answer: bool) returns (r: RelayResult)
      modifies this
      ensures calls == old(calls) + [command] && r == RelayResult(command, answer, false)
    {
      calls := calls + [command];
      r := RelayResult(command, answer, false);
    }
  }

  /** The file a store persists to; absent until the first write, replaced atomically. */
  class StoreFile {
    var content: Option<map<nat, bool>>

    constructor ()
      ensures content.None?
    {
      content := None;
    }
  }

  class FileProcessedStore {
    const file: StoreFile
    var data: map<nat, bool>

    /** Load what the file holds; an unreadable file counts as empty. */
    constructor (file: StoreFile, readable: bool)
      ensures this.file == file
      ensures data == if readable && file.content.Some? then file.content.value else map[]
    {
      this.file := file;
      if file.content.Some? && readable {
        data := file.content.value;
      } else {
        data := map[];
      }
    }

    method Get(command: nat) returns (r: Option<RelayResult>)
      ensures r == if command in data then Some(RelayResult(command, data[command], false)) else None
    {
      if command !in data {
        return None;
      }
      r := Some(RelayResult(command, data[command], false));
    }

    method Put(command: nat, result: RelayResult)
      modifies this, file
      ensures data == old(data)[command := result.wasOpened] && file.content == Some(data)
    {
      data := data[command := result.wasOpened];
      file.content := Some(data);
    }
  }

  /** No command was opened twice, and the record holds exactly the commands opened. */
  ghost predicate OpenedOnce(calls: seq<nat>, processed: map<nat, bool>) {
    && (forall i, j :: 0 <= i < j < |calls| ==> calls[i] != calls[j])
    && (forall c :: c in calls <==> c in processed)
  }

  /** The file holds the record. */
  ghost predicate Persisted(content: Option<map<nat, bool>>, processed: map<nat, bool>) {
    processed == if content.Some? then content.value else map[]
  }

  class EdgeCommandConsumer {
    const relay: Relay
    const store: FileProcessedStore

    ghost predicate Valid()
      reads relay, store, store.file
    {
      OpenedOnce(relay.calls, store.data) && Persisted(store.file.content, store.data)
    }

    /** A device that starts on a store file. It continues safely exactly when the file could be read or
      * nothing was opened before. */
    constructor (relay: Relay, store: FileProcessedStore, ghost before: map<nat, bool>, readable: bool)
      requires OpenedOnce(relay.calls, before) && Persisted(store.file.content, before)
      requires store.data == if readable && store.file.content.Some? then store.file.content.value else map[]
      ensures this.relay == relay && this.store == store
      ensures Valid() <==> readable || relay.calls == []
    {
      this.relay := relay;
      this.store := store;
      new;
      assert relay.calls != [] ==> relay.calls[0] in relay.calls && relay.calls[0] in before;
      assert relay.calls == [] ==> before == map[] by {
        assert forall c :: c in before ==> c in relay.calls;
      }
    }

    /** Call the relay unless the command was processed; a repeat returns the saved answer. */
    method OpenOnce(command: nat, answer: bool) returns (r: RelayResult)
      modifies relay, store, store.file
      ensures old(Valid()) ==> Valid()
      ensures (store.data, relay.calls) == OpenOnceOn(old(store.data), old(relay.calls), command, answer)
      ensures r == RelayResult(command, store.data[command], command in old(store.data))
    {
      var saved := store.Get(command);
      if saved.Some? {
        return saved.value.(deduplicated := true);
      }
      r := relay.Open(command, answer);
      store.Put(command, r);
    }

    /** A command that arrived with the ingestion answer is opened at once and acknowledged later. */
    method OnFastPath(command: nat, answer: bool) returns (outcome: ProcessOutcome)
      modifies relay, store, store.file
      ensures old(Valid()) ==> Valid()
      ensures (store.data, relay.calls) == OpenOnceOn(old(store.data), old(relay.calls), command, answer)
      ensures outcome == ProcessOutcome(command, store.data[command], command in old(store.data), false, false, false)
    {
      var r := OpenOnce(command, answer);
      outcome := ProcessOutcome(command, r.wasOpened, r.deduplicated, false, false, false);
    }

    /** One cycle of the durable channel: lease, open unless expired or processed, acknowledge. */
    method PullOnce(t: Tables, controller: Id, token: string, leasedAt: Instant, now: Instant, answer: bool)
      returns (outcome: Option<ProcessOutcome>)
      modifies t`commands, relay, store, store.file
      ensures old(Valid()) ==> Valid()
      ensures outcome.None? <==> NextLeasable(old(t.commands), controller, LEASE_TTL, leasedAt).None?
      ensures outcome.None? ==> t.commands == old(t.commands) && relay.calls == old(relay.calls)
      ensures outcome.Some? ==>
                var i := NextLeasable(old(t.commands), controller, LEASE_TTL, leasedAt).value;
                var before := old(t.commands)[i];
                var late := before.expiresAt.Some? && before.expiresAt.value <= now;
                && outcome.value.command == i && outcome.value.acked && outcome.value.expired == late
                && (store.data, relay.calls) == (if late then (old(store.data), old(relay.calls))
                                                 else OpenOnceOn(old(store.data), old(relay.calls), i, answer))
                && |t.commands| == |old(t.commands)| && t.commands[i].status == Acked
                && t.commands[i].ackResult
                   == Some(if late then "skipped" else if store.data[i] then "opened" else "failed")
                && (forall j :: 0 <= j < |t.commands| && j != i ==> t.commands[j] == old(t.commands)[j])
    {
      var leased := Services.LeaseOnce(t, controller, token, LEASE_TTL, leasedAt);
      if leased.None? {
        return None;
      }
      var i := leased.value;
      var c := t.commands[i];
      if c.expiresAt.Some? && c.expiresAt.value <= now {
        var skipped := Services.AckCommand(t, controller, i, token, Some("skipped"));
        return Some(ProcessOutcome(i, false, false, skipped.Acknowledged?,
                                   skipped.Acknowledged? && skipped.replayed, true));
      }
      var r := OpenOnce(i, answer);
      var ack := Services.AckCommand(t, controller, i, token, Some(if r.wasOpened then "opened" else "failed"));
      outcome := Some(ProcessOutcome(i, r.wasOpened, r.deduplicated, ack.Acknowledged?,
                                     ack.Acknowledged? && ack.replayed, false));
    }
  }

  /** A device opens a command, restarts on a file it cannot read and gets the command again: it calls the
    * relay a second time. With a readable file it does not. */
  method RestartAndRedeliver(command: nat, answer: bool, readable: bool) returns (relay: Relay)
    ensures fresh(relay) && relay.calls == if readable then [command] else [command, command]
  {
    relay := new Relay();
    var file := new StoreFile();
    var store := new FileProcessedStore(file, true);
    var device := new EdgeCommandConsumer(relay, store, map[], true);
    var _ := device.OnFastPath(command, answer);
    ghost var record := store.data;
    assert record == map[command := answer];
    var reloaded := new FileProcessedStore(file, readable);
    var restarted := new EdgeCommandConsumer(relay, reloaded, record, readable);
    var _ := restarted.OnFastPath(command, answer);
  }
}
