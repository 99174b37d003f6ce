/**
 * lib/file-state-manager.ts: per-session bookkeeping of the files an agent
 * read and modified. Sessions are created on first use, keep an append-only
 * change log, and disappear when cleared or when older than an hour at a
 * cleanup. `Date.now()` is the parameter `now` of each call.
 */
module FileStates {
  import opened Wrappers
  import opened Schema

  /** `60 * 60 * 1000`: one hour in milliseconds. */
  const OneHour: int := 3600000

  type Sessions = map<string, SessionState>

  /* ---------------- The transitions ---------------- */

  /** A session as `getSession` creates it at time `now`. */
  function Fresh(now: int): (s: SessionState)
    ensures s.filesRead == map[] && s.filesModified == {} && s.changeLog == [] && s.startTime == now
  {
    SessionState(map[], {}, [], now)
  }

  /** The sessions after `getSession(id)`: a fresh session is added only when `id` has none. */
  function Ensured(sessions: Sessions, id: string, now: int): (r: Sessions)
    ensures id in r && r.Keys == sessions.Keys + {id}
  {
    if id in sessions then sessions else sessions[id := Fresh(now)]
  }

  /** The session `getSession(id)` returns. */
  function SessionOf(sessions: Sessions, id: string, now: int): SessionState
  {
    Ensured(sessions, id, now)[id]
  }

  /** The sessions after `recordRead(id, path, content)`. */
  function AfterRead(sessions: Sessions, id: string, path: string, content: string, now: int): Sessions
  {
    var s := SessionOf(sessions, id, now);
    Ensured(sessions, id, now)[id := s.(filesRead := s.filesRead[path := FileState(path, Checksum(content), now)])]
  }

  /** The sessions after `recordModify(id, path, newContent, operation)`. */
  function AfterModify(sessions: Sessions, id: string, path: string, newContent: string, operation: Operation, now: int): Sessions
  {
    var s := SessionOf(sessions, id, now);
    var entry := ChangeLogEntry(now, path, operation, Checksum(newContent));
    Ensured(sessions, id, now)[id := s.(filesModified := s.filesModified + {path}, changeLog := s.changeLog + [entry])]
  }

  /** The sessions after `clearSession(id)`. */
  function AfterClear(sessions: Sessions, id: string): Sessions
  {
    sessions - {id}
  }

  /** A session `cleanupOldSessions` keeps at time `now`. */
  predicate Recent(s: SessionState, now: int)
  {
    !(s.startTime < now - OneHour)
  }

  /** The sessions after `cleanupOldSessions()` at time `now`. */
  function AfterCleanup(sessions: Sessions, now: int): Sessions
  {
    map id | id in sessions && Recent(sessions[id], now) :: sessions[id]
  }

  /* ---------------- Sequences of calls ---------------- */

  /** A call on the manager, with the time it happens at where it reads the clock. */
  datatype Call =
    | GetSessionCall(id: string, now: int)
    | RecordReadCall(id: string, path: string, content: string, now: int)
    | RecordModifyCall(id: string, path: string, newContent: string, operation: Operation, now: int)
    | GetFileStateCall(id: string, path: string, now: int)
    | WasModifiedCall(id: string, path: string, now: int)
    | GetChangeLogCall(id: string, now: int)
    | ClearSessionCall(id: string)
    | CleanupCall(now: int)

  /** The sessions after one call; the queries create the session they ask about. */
  function Step(sessions: Sessions, call: Call): Sessions
  {
    match call
    case GetSessionCall(id, now) => Ensured(sessions, id, now)
    case RecordReadCall(id, path, content, now) => AfterRead(sessions, id, path, content, now)
    case RecordModifyCall(id, path, newContent, op, now) => AfterModify(sessions, id, path, newContent, op, now)
    case GetFileStateCall(id, _, now) => Ensured(sessions, id, now)
    case WasModifiedCall(id, _, now) => Ensured(sessions, id, now)
    case GetChangeLogCall(id, now) => Ensured(sessions, id, now)
    case ClearSessionCall(id) => AfterClear(sessions, id)
    case CleanupCall(now) => AfterCleanup(sessions, now)
  }

  /** The sessions after the calls, first to last. */
  function Run(sessions: Sessions, calls: seq<Call>): Sessions
    decreases |calls|
  {
    if calls == [] then sessions else Step(Run(sessions, calls[..|calls| - 1]), calls[|calls| - 1])
  }

  /* ---------------- What the transitions promise ---------------- */

  /** A second `getSession` returns the same record, unreset, whatever the time. */
  lemma GetSessionKeepsExisting(sessions: Sessions, id: string, now: int, later: int)
    ensures SessionOf(Ensured(sessions, id, now), id, later) == SessionOf(sessions, id, now)
    ensures id in sessions ==> Ensured(sessions, id, now) == sessions
    ensures id !in sessions ==> SessionOf(sessions, id, now) == Fresh(now)
  {
  }

  /** `getSession` touches no other session. */
  lemma GetSessionFrames(sessions: Sessions, id: string, now: int, other: string)
    requires other != id
    ensures other in Ensured(sessions, id, now) <==> other in sessions
    ensures other in sessions ==> Ensured(sessions, id, now)[other] == sessions[other]
  {
  }

  /**
   * `recordRead` stores the checksum of the content under the path, read at
   * `now`; the other recorded paths, the rest of the session and the other
   * sessions are unchanged.
   */
  lemma RecordReadStores(sessions: Sessions, id: string, path: string, content: string, now: int)
    ensures var r := AfterRead(sessions, id, path, content, now);
      var before := SessionOf(sessions, id, now);
      id in r && path in r[id].filesRead
      && r[id].filesRead[path] == FileState(path, Checksum(content), now)
      && r[id].filesRead.Keys == before.filesRead.Keys + {path}
      && (forall q :: q in before.filesRead && q != path ==> r[id].filesRead[q] == before.filesRead[q])
      && r[id].filesModified == before.filesModified && r[id].changeLog == before.changeLog
      && r[id].startTime == before.startTime
      && r.Keys == sessions.Keys + {id}
      && (forall o :: o in sessions && o != id ==> r[o] == sessions[o])
  {
  }

  /** A later read of the same path replaces the earlier record. */
  lemma RecordReadReplaces(sessions: Sessions, id: string, path: string, c1: string, t1: int, c2: string, t2: int)
    requires id in sessions
    ensures AfterRead(AfterRead(sessions, id, path, c1, t1), id, path, c2, t2) == AfterRead(sessions, id, path, c2, t2)
  {
    var s := sessions[id];
    var r1 := s.filesRead[path := FileState(path, Checksum(c1), t1)];
    assert r1[path := FileState(path, Checksum(c2), t2)] == s.filesRead[path := FileState(path, Checksum(c2), t2)];
  }

  /**
   * `recordModify` marks the path modified and appends exactly one entry,
   * at the end of the log, carrying the time, path, operation and the
   * checksum of the new content; reads, start time and other sessions are
   * unchanged.
   */
  lemma RecordModifyAppends(sessions: Sessions, id: string, path: string, newContent: string, operation: Operation, now: int)
    ensures var r := AfterModify(sessions, id, path, newContent, operation, now);
      var before := SessionOf(sessions, id, now);
      id in r && r[id].filesModified == before.filesModified + {path}
      && |r[id].changeLog| == |before.changeLog| + 1
      && r[id].changeLog[..|before.changeLog|] == before.changeLog
      && r[id].changeLog[|before.changeLog|] == ChangeLogEntry(now, path, operation, Checksum(newContent))
      && r[id].filesRead == before.filesRead && r[id].startTime == before.startTime
      && r.Keys == sessions.Keys + {id}
      && (forall o :: o in sessions && o != id ==> r[o] == sessions[o])
  {
    var before := SessionOf(sessions, id, now);
    var log := before.changeLog + [ChangeLogEntry(now, path, operation, Checksum(newContent))];
    assert log[..|before.changeLog|] == before.changeLog;
  }

  /** `clearSession` removes that session only; the next `getSession` starts afresh. */
  lemma ClearSessionRemovesOnlyIt(sessions: Sessions, id: string, now: int)
    ensures id !in AfterClear(sessions, id)
    ensures AfterClear(sessions, id).Keys == sessions.Keys - {id}
    ensures forall o :: o in sessions && o != id ==> AfterClear(sessions, id)[o] == sessions[o]
    ensures SessionOf(AfterClear(sessions, id), id, now) == Fresh(now)
  {
  }

  /** `cleanupOldSessions` removes exactly the sessions started more than an hour before `now` and keeps the others as they were. */
  lemma CleanupRemovesExactlyOld(sessions: Sessions, now: int)
    ensures forall id :: id in AfterCleanup(sessions, now) <==> id in sessions && sessions[id].startTime >= now - OneHour
    ensures forall id :: id in AfterCleanup(sessions, now) ==> AfterCleanup(sessions, now)[id] == sessions[id]
  {
  }

  /** The calls after which a modified path stays modified: no clearing, and no cleanup old enough to reap a session started at `start`. */
  predicate Preserving(calls: seq<Call>, id: string, start: int)
  {
    forall k :: 0 <= k < |calls| ==>
      calls[k] != ClearSessionCall(id) && (calls[k].CleanupCall? ==> start >= calls[k].now - OneHour)
  }

  /**
   * After `recordModify(id, path, …)`, `wasModified(id, path)` stays true and
   * the log only grows, through any later calls until `clearSession(id)` or a
   * cleanup that finds the session older than an hour.
   */
  lemma {:induction false} ModifiedUntilCleared(sessions: Sessions, id: string, path: string, calls: seq<Call>)
    requires id in sessions && path in sessions[id].filesModified
    requires Preserving(calls, id, sessions[id].startTime)
    ensures var r := Run(sessions, calls);
      id in r && path in r[id].filesModified && r[id].startTime == sessions[id].startTime
      && |sessions[id].changeLog| <= |r[id].changeLog| && r[id].changeLog[..|sessions[id].changeLog|] == sessions[id].changeLog
    decreases |calls|
  {
    if calls != [] {
      var prior := calls[..|calls| - 1];
      assert Preserving(prior, id, sessions[id].startTime) by {
        forall k | 0 <= k < |prior|
          ensures prior[k] == calls[k]
        {
        }
      }
      ModifiedUntilCleared(sessions, id, path, prior);
      var m := Run(sessions, prior);
      var call := calls[|calls| - 1];
      StepKeepsModified(m, id, path, call, sessions[id].startTime);
      var r := Step(m, call);
      var n0 := |sessions[id].changeLog|;
      assert r[id].changeLog[..n0] == r[id].changeLog[..|m[id].changeLog|][..n0];
    }
  }

  /** One call other than clearing the session or a cleanup that expires it keeps the path modified and extends the log. */
  lemma StepKeepsModified(m: Sessions, id: string, path: string, call: Call, start: int)
    requires id in m && path in m[id].filesModified && m[id].startTime == start
    requires call != ClearSessionCall(id) && (call.CleanupCall? ==> start >= call.now - OneHour)
    ensures var r := Step(m, call);
      id in r && r[id].startTime == start && path in r[id].filesModified
      && |m[id].changeLog| <= |r[id].changeLog| && r[id].changeLog[..|m[id].changeLog|] == m[id].changeLog
  {
    match call
    case RecordModifyCall(i, p, c, op, now) =>
      if i == id {
        RecordModifyAppends(m, id, p, c, op, now);
      }
    case ClearSessionCall(i) =>
    case CleanupCall(now) =>
    case _ =>
      assert m[id].changeLog[..|m[id].changeLog|] == m[id].changeLog;
  }

  /** `wasModified(id, path)`: whether the session, made if absent, lists the path. */
  function WasModified(sessions: Sessions, id: string, path: string, now: int): bool
  {
    path in SessionOf(sessions, id, now).filesModified
  }

  /** A modified path reads as modified until the session is cleared, and as not modified just after. */
  lemma WasModifiedThenCleared(sessions: Sessions, id: string, path: string, content: string, operation: Operation, t1: int, t2: int)
    ensures WasModified(AfterModify(sessions, id, path, content, operation, t1), id, path, t2)
    ensures !WasModified(AfterClear(AfterModify(sessions, id, path, content, operation, t1), id), id, path, t2)
  {
  }

  /* ---------------- The manager ---------------- */

  class FileStateManager {
    var sessions: Sessions

    constructor ()
      ensures sessions == map[]
    {
      sessions := map[];
    }

    /** `getSession(sessionId)`: the session, created at `now` when absent. */
    method GetSession(sessionId: string, now: int) returns (s: SessionState)
      modifies this
      ensures sessions == Ensured(old(sessions), sessionId, now)
      ensures s == sessions[sessionId]
    {
      if sessionId !in sessions {
        sessions := sessions[sessionId := Fresh(now)];
      }
      s := sessions[sessionId];
    }

    /** `recordRead(sessionId, path, content)`. */
    method RecordRead(sessionId: string, path: string, content: string, now: int)
      modifies this
      ensures sessions == AfterRead(old(sessions), sessionId, path, content, now)
    {
      var session := GetSession(sessionId, now);
      var checksum := Checksum(content);
      sessions := sessions[sessionId := session.(filesRead := session.filesRead[path := FileState(path, checksum, now)])];
    }

    /** `recordModify(sessionId, path, newContent, operation)`. */
    method RecordModify(sessionId: string, path: string, newContent: string, operation: Operation, now: int)
      modifies this
      ensures sessions == AfterModify(old(sessions), sessionId, path, newContent, operation, now)
    {
      var session := GetSession(sessionId, now);
      var checksum := Checksum(newContent);
      var entry := ChangeLogEntry(now, path, operation, checksum);
      sessions := sessions[sessionId := session.(filesModified := session.filesModified + {path}, changeLog := session.changeLog + [entry])];
    }

    /** `getFileState(sessionId, path)`: the recorded read, if any. */
    method GetFileState(sessionId: string, path: string, now: int) returns (r: Option<FileState>)
      modifies this
      ensures sessions == Ensured(old(sessions), sessionId, now)
      ensures r == if path in sessions[sessionId].filesRead then Some(sessions[sessionId].filesRead[path]) else None
    {
      var session := GetSession(sessionId, now);
      r := if path in session.filesRead then Some(session.filesRead[path]) else None;
    }

    /** `wasModified(sessionId, path)`. */
    method WasModifiedPath(sessionId: string, path: string, now: int) returns (b: bool)
      modifies this
      ensures sessions == Ensured(old(sessions), sessionId, now)
      ensures b == WasModified(old(sessions), sessionId, path, now)
    {
      var session := GetSession(sessionId, now);
      b := path in session.filesModified;
    }

    /** `getChangeLog(sessionId)`: a copy of the log; a sequence is a value, so the copy cannot alias the session. */
    method GetChangeLog(sessionId: string, now: int) returns (log: seq<ChangeLogEntry>)
      modifies this
      ensures sessions == Ensured(old(sessions), sessionId, now)
      ensures log == sessions[sessionId].changeLog
    {
      var session := GetSession(sessionId, now);
      log := session.changeLog;
    }

    /** `clearSession(sessionId)`. */
    method ClearSession(sessionId: string)
      modifies this
      ensures sessions == AfterClear(old(sessions), sessionId)
    {
      sessions := sessions - {sessionId};
    }

    /** `cleanupOldSessions()` at time `now`: each session is visited once and deleted when too old. */
    method CleanupOldSessions(now: int)
      modifies this
      ensures sessions == AfterCleanup(old(sessions), now)
    {
      var oneHourAgo := now - OneHour;
      ghost var original := sessions;
      var pending := sessions.Keys;
      while pending != {}
        invariant pending <= original.Keys
        invariant forall id :: id in sessions <==> id in original && (id in pending || Recent(original[id], now))
        invariant forall id :: id in sessions ==> sessions[id] == original[id]
        decreases |pending|
      {
        var id :| id in pending;
        if sessions[id].startTime < oneHourAgo {
          sessions := sessions - {id};
        }
        pending := pending - {id};
      }
      assert sessions.Keys == AfterCleanup(original, now).Keys;
    }
  }
}
