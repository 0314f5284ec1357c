/** Properties of the versioned match store, stated over snapshots. */
module FirestoreProps {
  import opened Values
  import opened MatchData
  import opened FirestoreDb

  // ---------------------------------------------------------------------
  // setState: the `_stateID` guard and the log append

  /** A write whose `_stateID` is not strictly newer than the stored one is
      a no-op: neither the state nor the log changes, and nothing fails. */
  lemma SetStateStaleIsNoop(t: Tables, id: string, s: Record, deltalog: seq<Value>)
    requires id in t.state && !JsLess(StateID(t.state[id]), StateID(s))
    ensures AfterSetState(t, id, s, deltalog) == t
    ensures SetStateOutcome(t, id, s, deltalog) == Ok
  {
  }

  /** The stored state becomes the incoming one exactly when the guard
      accepts it and the transaction commits; nothing else is touched
      except the log of the same match. */
  lemma SetStateWritesIffAccepted(t: Tables, id: string, s: Record, deltalog: seq<Value>)
    ensures var t' := AfterSetState(t, id, s, deltalog);
      && t'.state == (if Accepts(t, id, s) && SetStateOutcome(t, id, s, deltalog) == Ok
                      then t.state[id := s] else t.state)
      && t'.metadata == t.metadata
      && t'.initialState == t.initialState
      && t'.log.Keys == t.log.Keys
      && (forall other :: other in t.log && other != id ==> t'.log[other] == t.log[other])
  {
  }

  /** The log changes only on an accepted write with a non-empty delta log,
      and it only ever grows at its end. */
  lemma LogAppendOnlyOnAcceptedWrite(t: Tables, id: string, s: Record, deltalog: seq<Value>)
    ensures var t' := AfterSetState(t, id, s, deltalog);
      && (t'.log != t.log ==> Accepts(t, id, s) && |deltalog| > 0 && id in t.log)
      && (id in t.log ==>
            && id in t'.log
            && |t.log[id].log| <= |t'.log[id].log|
            && t'.log[id].log[..|t.log[id].log|] == t.log[id].log)
  {
  }

  /** An accepted write whose delta log holds distinct entries new to the
      log stores the state and appends the delta log as it is. */
  lemma AcceptedWriteAppends(t: Tables, id: string, s: Record, d: seq<Value>)
    requires Accepts(t, id, s) && id in t.log
    requires Distinct(d)
    requires forall i :: 0 <= i < |d| ==> d[i] !in t.log[id].log
    ensures AfterSetState(t, id, s, d)
      == t.(state := t.state[id := s], log := t.log[id := LogDoc(t.log[id].log + d)])
  {
    if |d| == 0 {
      assert t.log[id].log + d == t.log[id].log;
    } else {
      ArrayUnionAppendsNew(t.log[id].log, d);
    }
  }

  /** Two accepted writes in version order whose delta logs hold distinct, new
      entries leave the log as the old log followed by both delta logs. */
  lemma TwoAcceptedWritesConcatenate(
    t: Tables, id: string, s1: Record, d1: seq<Value>, s2: Record, d2: seq<Value>)
    requires Accepts(t, id, s1) && JsLess(StateID(s1), StateID(s2))
    requires id in t.log
    requires Distinct(d1) && Distinct(d2)
    requires forall i :: 0 <= i < |d1| ==> d1[i] !in t.log[id].log
    requires forall i :: 0 <= i < |d2| ==> d2[i] !in t.log[id].log + d1
    ensures var t' := AfterSetState(AfterSetState(t, id, s1, d1), id, s2, d2);
      && id in t'.state && t'.state[id] == s2
      && id in t'.log && t'.log[id].log == t.log[id].log + d1 + d2
  {
    AcceptedWriteAppends(t, id, s1, d1);
    var t1 := t.(state := t.state[id := s1], log := t.log[id := LogDoc(t.log[id].log + d1)]);
    assert t1.state[id] == s1 && t1.log[id].log == t.log[id].log + d1;
    AcceptedWriteAppends(t1, id, s2, d2);
  }

  // ---------------------------------------------------------------------
  // Monotonicity over a sequence of writes

  /** The arguments of one `setState` call for a fixed match. */
  datatype Write = Write(state: Record, deltalog: seq<Value>)

  predicate AllNumeric(ws: seq<Write>)
  {
    forall i :: 0 <= i < |ws| ==> StateID(ws[i].state).Some?
  }

  /** Every write can commit: the log document exists, or no write carries a
      delta log. `setState` never deletes the log document, so this holds
      throughout the sequence once it holds at the start. */
  predicate CanCommit(t: Tables, id: string, ws: seq<Write>)
  {
    id in t.log || forall i :: 0 <= i < |ws| ==> ws[i].deltalog == []
  }

  /** The largest `_stateID` among the given writes. */
  function MaxVersion(ws: seq<Write>): (m: int)
    requires |ws| > 0 && AllNumeric(ws)
    ensures forall i :: 0 <= i < |ws| ==> StateID(ws[i].state).value <= m
    ensures exists i :: 0 <= i < |ws| && StateID(ws[i].state).value == m
    decreases |ws|
  {
    if |ws| == 1 then StateID(ws[0].state).value
    else
      var rest := MaxVersion(ws[1..]);
      assert forall i :: 1 <= i < |ws| ==> ws[i] == ws[1..][i - 1];
      if StateID(ws[0].state).value >= rest then StateID(ws[0].state).value else rest
  }

  /** `setState` calls for one match, in order. */
  function ApplySetStates(t: Tables, id: string, ws: seq<Write>): Tables
    decreases |ws|
  {
    if ws == [] then t
    else ApplySetStates(AfterSetState(t, id, ws[0].state, ws[0].deltalog), id, ws[1..])
  }

  /** The delta logs of the writes the guard accepts, in the order the
      writes are applied; a rejected write contributes nothing. */
  function AcceptedDeltas(t: Tables, id: string, ws: seq<Write>): (r: seq<Value>)
    ensures forall x :: x in r ==> exists i :: 0 <= i < |ws| && x in ws[i].deltalog
    ensures (forall i :: 0 <= i < |ws| ==> ws[i].deltalog == []) ==> r == []
    decreases |ws|
  {
    if ws == [] then []
    else
      var rest := AcceptedDeltas(AfterSetState(t, id, ws[0].state, ws[0].deltalog), id, ws[1..]);
      assert forall i :: 0 <= i < |ws[1..]| ==> ws[1..][i] == ws[i + 1];
      (if Accepts(t, id, ws[0].state) then ws[0].deltalog else []) + rest
  }

  /** In a log with distinct entries followed by `d` and more, `d` has
      distinct entries, none of them in the log. */
  lemma DistinctMiddle(log: seq<Value>, d: seq<Value>, rest: seq<Value>)
    requires Distinct(log + (d + rest))
    ensures Distinct(d)
    ensures forall i :: 0 <= i < |d| ==> d[i] !in log
  {
    var all := log + (d + rest);
    forall i, j | 0 <= i < j < |d| ensures d[i] != d[j] {
      assert d[i] == all[|log| + i] && d[j] == all[|log| + j];
    }
    forall i | 0 <= i < |d| ensures d[i] !in log {
      assert d[i] == all[|log| + i];
      forall k | 0 <= k < |log| ensures log[k] != d[i] {
        assert log[k] == all[k];
      }
    }
  }

  /** After any sequence of writes on a match whose log document exists, the
      log is the old log followed by the delta logs of the accepted writes in
      the order they were accepted; rejected writes leave no trace. The
      entries must be distinct, since `arrayUnion` drops repeated ones. */
  lemma {:induction false} LogIsAcceptedDeltas(t: Tables, id: string, ws: seq<Write>)
    requires id in t.log
    requires Distinct(t.log[id].log + AcceptedDeltas(t, id, ws))
    ensures id in ApplySetStates(t, id, ws).log
    ensures ApplySetStates(t, id, ws).log[id].log == t.log[id].log + AcceptedDeltas(t, id, ws)
    decreases |ws|
  {
    if ws == [] {
      assert t.log[id].log + [] == t.log[id].log;
    } else {
      var w := ws[0];
      var t1 := AfterSetState(t, id, w.state, w.deltalog);
      var rest := AcceptedDeltas(t1, id, ws[1..]);
      var log := t.log[id].log;
      if Accepts(t, id, w.state) {
        var d := w.deltalog;
        assert AcceptedDeltas(t, id, ws) == d + rest;
        DistinctMiddle(log, d, rest);
        AcceptedWriteAppends(t, id, w.state, d);
        assert t1.log[id].log == log + d;
        assert (log + d) + rest == log + (d + rest);
        LogIsAcceptedDeltas(t1, id, ws[1..]);
      } else {
        assert t1 == t;
        assert AcceptedDeltas(t, id, ws) == [] + rest;
        assert [] + rest == rest;
        LogIsAcceptedDeltas(t1, id, ws[1..]);
      }
    }
  }

  /** One write that can commit stores its state exactly when the guard
      accepts it, and keeps the log document. */
  lemma WriteCommits(t: Tables, id: string, w: Write)
    requires id in t.log || w.deltalog == []
    ensures var t' := AfterSetState(t, id, w.state, w.deltalog);
      && (id in t.log ==> id in t'.log)
      && t'.state == if Accepts(t, id, w.state) then t.state[id := w.state] else t.state
  {
  }

  /** After any sequence of writes with numeric versions that can commit, the
      stored version is the largest of them (and of the version stored before). */
  lemma {:induction false} StoredVersionIsMax(t: Tables, id: string, ws: seq<Write>)
    requires |ws| > 0 && AllNumeric(ws) && CanCommit(t, id, ws)
    requires id in t.state ==> StateID(t.state[id]).Some?
    ensures var t' := ApplySetStates(t, id, ws);
      && id in t'.state
      && StateID(t'.state[id]) == Some(
           if id in t.state && StateID(t.state[id]).value > MaxVersion(ws)
           then StateID(t.state[id]).value else MaxVersion(ws))
    decreases |ws|
  {
    var t1 := AfterSetState(t, id, ws[0].state, ws[0].deltalog);
    WriteCommits(t, id, ws[0]);
    assert StateID(ws[0].state).Some?;
    if |ws| > 1 {
      var rest := ws[1..];
      assert forall i :: 0 <= i < |rest| ==> rest[i] == ws[i + 1];
      assert CanCommit(t1, id, rest);
      StoredVersionIsMax(t1, id, rest);
    }
  }

  /** Reordering the writes does not change their largest version. */
  lemma MaxVersionPermutation(ws1: seq<Write>, ws2: seq<Write>)
    requires |ws1| > 0 && AllNumeric(ws1)
    requires multiset(ws1) == multiset(ws2)
    ensures |ws2| > 0 && AllNumeric(ws2)
    ensures MaxVersion(ws1) == MaxVersion(ws2)
  {
    assert |ws2| == |multiset(ws2)| == |ws1|;
    forall i | 0 <= i < |ws2| ensures StateID(ws2[i].state).Some? {
      assert ws2[i] in multiset(ws1);
    }
    var m1, m2 := MaxVersion(ws1), MaxVersion(ws2);
    var i1 :| 0 <= i1 < |ws1| && StateID(ws1[i1].state).value == m1;
    var i2 :| 0 <= i2 < |ws2| && StateID(ws2[i2].state).value == m2;
    assert ws1[i1] in multiset(ws2);
    assert ws2[i2] in multiset(ws1);
  }

  /** Reordering the writes keeps them able to commit. */
  lemma CanCommitPermutation(t: Tables, id: string, ws1: seq<Write>, ws2: seq<Write>)
    requires CanCommit(t, id, ws1) && multiset(ws1) == multiset(ws2)
    ensures CanCommit(t, id, ws2)
  {
    if id !in t.log {
      forall i | 0 <= i < |ws2| ensures ws2[i].deltalog == [] {
        assert ws2[i] in multiset(ws1);
      }
    }
  }

  /** The final stored version does not depend on the order of the writes. */
  lemma FinalVersionOrderIndependent(t: Tables, id: string, ws1: seq<Write>, ws2: seq<Write>)
    requires |ws1| > 0 && AllNumeric(ws1) && CanCommit(t, id, ws1)
    requires multiset(ws1) == multiset(ws2)
    requires id in t.state ==> StateID(t.state[id]).Some?
    ensures id in ApplySetStates(t, id, ws1).state && id in ApplySetStates(t, id, ws2).state
    ensures StateID(ApplySetStates(t, id, ws1).state[id]) == StateID(ApplySetStates(t, id, ws2).state[id])
  {
    MaxVersionPermutation(ws1, ws2);
    CanCommitPermutation(t, id, ws1, ws2);
    StoredVersionIsMax(t, id, ws1);
    StoredVersionIsMax(t, id, ws2);
  }

  /** Without a log document, a write carrying a delta log stores nothing,
      so the versions above need not be reached. */
  lemma UncommittableWriteStoresNothing(t: Tables, id: string, w: Write)
    requires id !in t.log && w.deltalog != []
    ensures AfterSetState(t, id, w.state, w.deltalog) == t
  {
  }

  // ---------------------------------------------------------------------
  // createMatch, fetch, wipe

  /** `createMatch` writes the extended metadata, the initial state under both
      state and initialState, and an empty log, or fails on an existing match
      and writes nothing. */
  lemma CreateMatchWritesAllFour(t: Tables, id: string, m: Record, init: Record)
    ensures var t' := AfterCreateMatch(t, id, m, init);
      if AnyExists(t, id) then
        CreateMatchOutcome(t, id) == Err(AlreadyExists) && t' == t
      else
        && CreateMatchOutcome(t, id) == Ok
        && t'.metadata == t.metadata[id := Extend(m)]
        && t'.state == t.state[id := init]
        && t'.initialState == t.initialState[id := init]
        && t'.log == t.log[id := LogDoc([])]
        && AllOrNone(t', id)
  {
  }

  /** A field is in the result exactly when it was requested and its document
      exists; the log comes unwrapped and the metadata without its flag. */
  lemma FetchReturnsRequestedExisting(t: Tables, id: string, opts: FetchOpts)
    ensures var r := Fetched(t, id, opts);
      && (r.metadata.Some? <==> opts.metadata && id in t.metadata)
      && (r.state.Some? <==> opts.state && id in t.state)
      && (r.initialState.Some? <==> opts.initialState && id in t.initialState)
      && (r.log.Some? <==> opts.log && id in t.log)
      && (r.metadata.Some? ==> IsGameoverKey !in r.metadata.value)
      && (r.log.Some? ==> r.log.value == t.log[id].log)
      && (!AnyExists(t, id) ==> r == NoFields)
  {
  }

  /** Fetching every field of a newly created match gives back what was
      passed to `createMatch`, and an empty log. */
  lemma FetchAfterCreate(t: Tables, id: string, m: Record, init: Record)
    requires !AnyExists(t, id) && IsGameoverKey !in m
    ensures Fetched(AfterCreateMatch(t, id, m, init), id, AllFields)
      == FetchResult(Some(m), Some(init), Some(init), Some([]))
  {
    StandardiseUndoesExtend(m);
  }

  /** `setMetadata` rewrites only the metadata, which reads back unchanged. */
  lemma SetMetadataReadsBack(t: Tables, id: string, m: Record)
    requires IsGameoverKey !in m
    ensures var t' := AfterSetMetadata(t, id, m);
      && t'.state == t.state && t'.initialState == t.initialState && t'.log == t.log
      && Fetched(t', id, FetchOpts(true, false, false, false)).metadata == Some(m)
  {
    StandardiseUndoesExtend(m);
  }

  /** After `wipe` nothing of the match can be fetched; other matches are
      untouched and a second `wipe` changes nothing. */
  lemma WipeRemovesAll(t: Tables, id: string, opts: FetchOpts)
    ensures var t' := AfterWipe(t, id);
      && Fetched(t', id, opts) == NoFields
      && !AnyExists(t', id)
      && AfterWipe(t', id) == t'
      && (forall other :: other != id ==> Fetched(t', other, opts) == Fetched(t, other, opts))
  {
  }

  /** `createMatch` and `wipe` keep the four documents of a match together. */
  lemma CreateAndWipeKeepAllOrNone(t: Tables, id: string, m: Record, init: Record)
    requires AllOrNone(t, id)
    ensures AllOrNone(AfterCreateMatch(t, id, m, init), id)
    ensures AllOrNone(AfterWipe(t, id), id)
  {
  }

  /** `setState` on a match that was never created writes a lone state
      document, so the four documents need not exist together. */
  lemma SetStateAloneCreatesLoneState(s: Record)
    ensures var t := AfterSetState(Tables(map[], map[], map[], map[]), "A", s, []);
      "A" in t.state && !AllOrNone(t, "A")
  {
  }
}
