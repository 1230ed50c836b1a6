/** The Node's tables of matched remote endpoints, and what DDS discovery events do to them. */
module MatchTables {

  /** A DDS GUID; only its identity matters here. */
  type Guid = nat

  /** Which table an endpoint of this node is a key of. */
  datatype Side = LocalReader | LocalWriter

  datatype Event =
    | RemoteReaderMatched(localWriter: Guid, remoteReader: Guid)
    | RemoteWriterMatched(localReader: Guid, remoteWriter: Guid)
    | ReaderLost(lostReader: Guid)
    | WriterLost(lostWriter: Guid)
    | OtherEvent // every other DDS status, and ROS discovery updates

  type Table = map<Guid, set<Guid>>

  datatype Tables = Tables(readersToRemoteWriters: Table, writersToRemoteReaders: Table) {
    function Of(side: Side): Table {
      if side.LocalReader? then readersToRemoteWriters else writersToRemoteReaders
    }

    function Remotes(side: Side, local: Guid): set<Guid> {
      if local in Of(side) then Of(side)[local] else {}
    }
  }

  const NO_MATCHES := Tables(map[], map[])

  function Insert(t: Table, local: Guid, remote: Guid): Table {
    t[local := (if local in t then t[local] else {}) + {remote}]
  }

  function Forget(t: Table, remote: Guid): Table {
    map l | l in t :: t[l] - {remote}
  }

  function Record(t: Tables, e: Event): Tables {
    match e
    case RemoteReaderMatched(w, r) => t.(writersToRemoteReaders := Insert(t.writersToRemoteReaders, w, r))
    case RemoteWriterMatched(r, w) => t.(readersToRemoteWriters := Insert(t.readersToRemoteWriters, r, w))
    case ReaderLost(r) => t.(writersToRemoteReaders := Forget(t.writersToRemoteReaders, r))
    case WriterLost(w) => t.(readersToRemoteWriters := Forget(t.readersToRemoteWriters, w))
    case OtherEvent => t
  }

  /** The tables after a whole log of events. */
  function Replay(log: seq<Event>): Tables {
    if log == [] then NO_MATCHES else Record(Replay(log[..|log| - 1]), log[|log| - 1])
  }

  // ---------------------------------------------------------------------------------------
  // What the tables mean, said without them: the log alone decides who is matched.

  ghost predicate Matches(e: Event, side: Side, local: Guid, remote: Guid) {
    if side.LocalReader? then e == RemoteWriterMatched(local, remote) else e == RemoteReaderMatched(local, remote)
  }

  ghost predicate Loses(e: Event, side: Side, remote: Guid) {
    if side.LocalReader? then e == WriterLost(remote) else e == ReaderLost(remote)
  }

  ghost predicate MatchedSinceLost(log: seq<Event>, i: nat, side: Side, local: Guid, remote: Guid) {
    && i < |log|
    && Matches(log[i], side, local, remote)
    && forall j :: i < j < |log| ==> !Loses(log[j], side, remote)
  }

  /** The remote was matched with the local endpoint more recently than it was last lost. */
  ghost predicate Current(log: seq<Event>, side: Side, local: Guid, remote: Guid) {
    exists i: nat :: MatchedSinceLost(log, i, side, local, remote)
  }

  lemma {:induction false} RemotesAreCurrent(log: seq<Event>, side: Side, local: Guid, remote: Guid)
    ensures remote in Replay(log).Remotes(side, local) <==> Current(log, side, local, remote)
  {
    if log != [] {
      var n := |log| - 1;
      var before, e := log[..n], log[n];
      RemotesAreCurrent(before, side, local, remote);
      if Matches(e, side, local, remote) {
        assert MatchedSinceLost(log, n, side, local, remote);
      } else if Loses(e, side, remote) {
        forall i: nat | i < |log| ensures !MatchedSinceLost(log, i, side, local, remote) {
        }
      } else {
        if i: nat :| MatchedSinceLost(before, i, side, local, remote) {
          assert MatchedSinceLost(log, i, side, local, remote);
        }
        if i: nat :| MatchedSinceLost(log, i, side, local, remote) {
          assert forall j :: i < j < n ==> before[j] == log[j];
          assert MatchedSinceLost(before, i, side, local, remote);
        }
      }
    }
  }

  /** The endpoints named as remote in any match of the log. */
  ghost function RemotesNamed(log: seq<Event>): set<Guid> {
    set i | 0 <= i < |log| && (log[i].RemoteReaderMatched? || log[i].RemoteWriterMatched?) ::
      if log[i].RemoteReaderMatched? then log[i].remoteReader else log[i].remoteWriter
  }

  /** The count reported for a local endpoint is the number of its current matches. */
  lemma CountsCurrentMatches(log: seq<Event>, side: Side, local: Guid)
    ensures |Replay(log).Remotes(side, local)|
         == |set r | r in RemotesNamed(log) && Current(log, side, local, r)|
  {
    var current := set r | r in RemotesNamed(log) && Current(log, side, local, r);
    forall r ensures r in Replay(log).Remotes(side, local) <==> r in current {
      RemotesAreCurrent(log, side, local, r);
      if i: nat :| MatchedSinceLost(log, i, side, local, r) {
        assert r in RemotesNamed(log);
      }
    }
    assert Replay(log).Remotes(side, local) == current;
  }

  // ---------------------------------------------------------------------------------------

  /** The two tables as the Node and the Spinner share them. */
  class MatchRecorder {
    var readersToRemoteWriters: Table
    var writersToRemoteReaders: Table

    function View(): Tables
      reads this
    {
      Tables(readersToRemoteWriters, writersToRemoteReaders)
    }

    constructor ()
      ensures View() == Replay([])
    {
      readersToRemoteWriters, writersToRemoteReaders := map[], map[];
    }

    /** The table-updating arms of the Spinner's event loop. */
    method OnStatusEvent(e: Event)
      modifies this
      ensures View() == Record(old(View()), e)
    {
      assert forall g: Guid :: {} + {g} == {g};
      match e {
        case RemoteReaderMatched(w, r) =>
          if w in writersToRemoteReaders {
            writersToRemoteReaders := writersToRemoteReaders[w := writersToRemoteReaders[w] + {r}];
          } else {
            writersToRemoteReaders := writersToRemoteReaders[w := {r}];
          }
        case RemoteWriterMatched(r, w) =>
          if r in readersToRemoteWriters {
            readersToRemoteWriters := readersToRemoteWriters[r := readersToRemoteWriters[r] + {w}];
          } else {
            readersToRemoteWriters := readersToRemoteWriters[r := {w}];
          }
        case ReaderLost(guid) =>
          writersToRemoteReaders := RemoveFromAll(writersToRemoteReaders, guid);
        case WriterLost(guid) =>
          readersToRemoteWriters := RemoveFromAll(readersToRemoteWriters, guid);
        case OtherEvent =>
      }
    }

    /** The loop over `values_mut()`: the lost endpoint leaves every row, in any order. */
    static method RemoveFromAll(table: Table, guid: Guid) returns (t: Table)
      ensures t == Forget(table, guid)
    {
      t := table;
      var todo := table.Keys;
      while todo != {}
        invariant t.Keys == table.Keys && todo <= table.Keys
        invariant forall l :: l in table ==> t[l] == if l in todo then table[l] else table[l] - {guid}
        decreases todo
      {
        var l :| l in todo;
        t := t[l := t[l] - {guid}];
        todo := todo - {l};
      }
    }

    /** Every event of a run, one after the other: the state is the replay of the log. */
    method OnStatusEvents(ghost past: seq<Event>, events: seq<Event>)
      requires View() == Replay(past)
      modifies this
      ensures View() == Replay(past + events)
    {
      assert past + events[..0] == past;
      for i := 0 to |events|
        invariant View() == Replay(past + events[..i])
      {
        OnStatusEvent(events[i]);
        assert (past + events[..i + 1])[..|past| + i] == past + events[..i];
      }
      assert events[..|events|] == events;
    }

    /** `get_publisher_count` (for a subscription) and `get_subscription_count` (for a publisher). */
    method MatchCount(side: Side, local: Guid, ghost log: seq<Event>) returns (count: nat)
      requires View() == Replay(log)
      ensures count == |set r | r in RemotesNamed(log) && Current(log, side, local, r)|
    {
      var table := if side.LocalReader? then readersToRemoteWriters else writersToRemoteReaders;
      count := if local in table then |table[local]| else 0;
      CountsCurrentMatches(log, side, local);
    }
  }
}
