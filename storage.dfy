/** src/common/storage.py: the SQLite job queue and chat memory, modelled as
    in-memory tables. Row order is insertion order, which stands for
    `ORDER BY created_at`; `CURRENT_TIMESTAMP` is the `now` parameter. */
module Storage {
  import opened Seqs

  datatype JobStatus = Pending | Processing | Completed | Failed

  /** The stored text of each status (a `str` enum). */
  function StatusName(s: JobStatus): (name: string)
    ensures name in ["pending", "processing", "completed", "failed"]
  {
    match s
    case Pending => "pending"
    case Processing => "processing"
    case Completed => "completed"
    case Failed => "failed"
  }

  lemma StatusNamesDistinct(a: JobStatus, b: JobStatus)
    ensures StatusName(a) == StatusName(b) <==> a == b
  {
  }

  /** A JSON object column. */
  type Metadata = map<string, string>

  datatype Job = Job(id: nat, docId: string, filePath: string, language: string,
                     status: JobStatus, errorMessage: Option<string>,
                     metadata: Metadata, updatedAt: nat)

  datatype Session = Session(id: nat, sessionId: string, metadata: Metadata)

  datatype Message = Message(id: nat, sessionId: string, role: string,
                             content: string, metadata: Metadata)

  /** `json.dumps(metadata or {})` */
  function OrEmpty(m: Option<Metadata>): Metadata
  {
    if m.Some? then m.value else map[]
  }

  ghost predicate UniqueDocIds(jobs: seq<Job>)
  {
    forall i, j :: 0 <= i < j < |jobs| ==> jobs[i].docId != jobs[j].docId
  }

  ghost predicate UniqueSessionIds(sessions: seq<Session>)
  {
    forall i, j :: 0 <= i < j < |sessions| ==> sessions[i].sessionId != sessions[j].sessionId
  }

  /** SQLite's `LIMIT n`: a negative n means no limit. */
  function LimitRows<T>(rows: seq<T>, limit: int): (r: seq<T>)
    ensures limit < 0 ==> r == rows
    ensures limit >= 0 ==> |r| == Min(limit, |rows|)
    ensures r == rows[..|r|]
  {
    if limit < 0 || limit >= |rows| then rows else rows[..limit]
  }

  // ---------------------------------------------------------------------
  // Jobs
  // ---------------------------------------------------------------------

  /** `SELECT * FROM jobs WHERE doc_id = ?`, first row. */
  function FindJob(jobs: seq<Job>, docId: string): (r: Option<Job>)
    ensures r.Some? <==> exists i :: 0 <= i < |jobs| && jobs[i].docId == docId
    ensures r.Some? ==> r.value in jobs && r.value.docId == docId
  {
    if jobs == [] then None
    else if jobs[0].docId == docId then Some(jobs[0])
    else
      var r := FindJob(jobs[1..], docId);
      assert forall i :: 1 <= i < |jobs| ==> jobs[i] == jobs[1..][i - 1];
      r
  }

  /** `SELECT * FROM jobs WHERE status = 'pending' ORDER BY created_at LIMIT ?` */
  function PendingJobs(jobs: seq<Job>, limit: int): (r: seq<Job>)
  {
    LimitRows(Filter(jobs, (j: Job) => j.status == Pending), limit)
  }

  /** Only pending jobs, the oldest first, at most `limit` of them. */
  lemma PendingJobsFacts(jobs: seq<Job>, limit: int)
    ensures var r := PendingJobs(jobs, limit);
      && (forall i :: 0 <= i < |r| ==> r[i].status == Pending && r[i] in jobs)
      && (limit < 0 ==> |r| == |Filter(jobs, (j: Job) => j.status == Pending)|)
      && (limit >= 0 ==> |r| == Min(limit, |Filter(jobs, (j: Job) => j.status == Pending)|))
      && r == Filter(jobs, (j: Job) => j.status == Pending)[..|r|]
  {
  }

  /** With no pending job the queue query is empty; otherwise a positive
      limit yields the oldest pending job first. */
  lemma {:induction false} PendingJobsHead(jobs: seq<Job>, k: nat)
    requires k < |jobs| && jobs[k].status == Pending
    requires forall i :: 0 <= i < k ==> jobs[i].status != Pending
    ensures |PendingJobs(jobs, 1)| == 1 && PendingJobs(jobs, 1)[0] == jobs[k]
  {
    var p := (j: Job) => j.status == Pending;
    assert jobs == jobs[..k] + jobs[k..];
    FilterAppend(jobs[..k], jobs[k..], p);
    NoneFiltered(jobs[..k], p);
  }

  lemma {:induction false} NoneFiltered<T>(s: seq<T>, p: T -> bool)
    requires forall i :: 0 <= i < |s| ==> !p(s[i])
    ensures Filter(s, p) == []
  {
    if s != [] { NoneFiltered(s[1..], p); }
  }

  lemma {:induction false} NoPendingNoJobs(jobs: seq<Job>, limit: int)
    requires forall i :: 0 <= i < |jobs| ==> jobs[i].status != Pending
    ensures PendingJobs(jobs, limit) == []
  {
    NoneFiltered(jobs, (j: Job) => j.status == Pending);
  }

  /** `UPDATE jobs SET status = ?, error_message = ?, updated_at = now
      WHERE doc_id = ?` */
  function UpdateStatus(jobs: seq<Job>, docId: string, status: JobStatus,
                        errorMessage: Option<string>, now: nat): (r: seq<Job>)
    ensures |r| == |jobs|
    ensures forall i :: 0 <= i < |jobs| && jobs[i].docId == docId ==>
              r[i] == jobs[i].(status := status, errorMessage := errorMessage, updatedAt := now)
    ensures forall i :: 0 <= i < |jobs| && jobs[i].docId != docId ==> r[i] == jobs[i]
  {
    Map(jobs, (j: Job) =>
      if j.docId == docId then j.(status := status, errorMessage := errorMessage, updatedAt := now) else j)
  }

  /** An update keeps doc ids unique and the lookup then sees the new status. */
  lemma UpdateStatusFacts(jobs: seq<Job>, docId: string, status: JobStatus,
                          errorMessage: Option<string>, now: nat)
    requires UniqueDocIds(jobs)
    ensures var r := UpdateStatus(jobs, docId, status, errorMessage, now);
      && UniqueDocIds(r)
      && (forall i :: 0 <= i < |r| ==> r[i].docId == jobs[i].docId && r[i].id == jobs[i].id)
      && (FindJob(jobs, docId).Some? ==>
            FindJob(r, docId) == Some(FindJob(jobs, docId).value.(status := status, errorMessage := errorMessage, updatedAt := now)))
      && (FindJob(jobs, docId).None? ==> r == jobs)
  {
    var r := UpdateStatus(jobs, docId, status, errorMessage, now);
    assert forall i :: 0 <= i < |r| ==> r[i].docId == jobs[i].docId && r[i].id == jobs[i].id by {
      forall i | 0 <= i < |r| ensures r[i].docId == jobs[i].docId && r[i].id == jobs[i].id {
        if jobs[i].docId == docId {}
      }
    }
    assert UniqueDocIds(r) by {
    }
    if FindJob(jobs, docId).Some? {
      UpdateFoundJob(jobs, r, docId, status, errorMessage, now);
    } else {
      assert r == jobs by {
        forall i | 0 <= i < |r| ensures r[i] == jobs[i] {
          assert jobs[i].docId != docId;
        }
      }
    }
  }

  lemma UpdateFoundJob(jobs: seq<Job>, r: seq<Job>, docId: string, status: JobStatus,
                       errorMessage: Option<string>, now: nat)
    requires UniqueDocIds(jobs) && FindJob(jobs, docId).Some?
    requires r == UpdateStatus(jobs, docId, status, errorMessage, now)
    ensures FindJob(r, docId) == Some(FindJob(jobs, docId).value.(status := status, errorMessage := errorMessage, updatedAt := now))
  {
    FindJobUnique(jobs, docId);
    var k :| 0 <= k < |jobs| && jobs[k] == FindJob(jobs, docId).value;
    assert forall i :: 0 <= i < k ==> r[i].docId != docId;
    FindJobAt(r, docId, k);
  }

  /** With unique doc ids, the lookup returns the one row holding that id. */
  lemma {:induction false} FindJobUnique(jobs: seq<Job>, docId: string)
    requires UniqueDocIds(jobs)
    ensures forall k :: 0 <= k < |jobs| && jobs[k].docId == docId ==> FindJob(jobs, docId) == Some(jobs[k])
  {
    forall k | 0 <= k < |jobs| && jobs[k].docId == docId ensures FindJob(jobs, docId) == Some(jobs[k]) {
      FindJobAt(jobs, docId, k);
    }
  }

  lemma {:induction false} FindJobAt(jobs: seq<Job>, docId: string, k: nat)
    requires k < |jobs| && jobs[k].docId == docId
    requires forall i :: 0 <= i < k ==> jobs[i].docId != docId
    ensures FindJob(jobs, docId) == Some(jobs[k])
  {
    if k > 0 {
      FindJobAt(jobs[1..], docId, k - 1);
    }
  }

  // ---------------------------------------------------------------------
  // Chat sessions and messages
  // ---------------------------------------------------------------------

  function HasSession(sessions: seq<Session>, sessionId: string): (b: bool)
    ensures b <==> exists i :: 0 <= i < |sessions| && sessions[i].sessionId == sessionId
  {
    if sessions == [] then false
    else if sessions[0].sessionId == sessionId then true
    else
      assert forall i :: 1 <= i < |sessions| ==> sessions[i] == sessions[1..][i - 1];
      HasSession(sessions[1..], sessionId)
  }

  /** `INSERT OR IGNORE INTO chat_sessions`: the UNIQUE session id makes a
      second insert a no-op. */
  function InsertSession(sessions: seq<Session>, newId: nat, sessionId: string,
                         metadata: Metadata): (r: seq<Session>)
    ensures HasSession(sessions, sessionId) ==> r == sessions
    ensures !HasSession(sessions, sessionId) ==> r == sessions + [Session(newId, sessionId, metadata)]
    ensures HasSession(r, sessionId)
  {
    if HasSession(sessions, sessionId) then sessions
    else
      var r := sessions + [Session(newId, sessionId, metadata)];
      assert r[|sessions|].sessionId == sessionId;
      r
  }

  /** Creating a session twice is the same as creating it once: one row,
      the first metadata. */
  lemma CreateSessionIdempotent(sessions: seq<Session>, id1: nat, id2: nat,
                                sessionId: string, m1: Metadata, m2: Metadata)
    ensures InsertSession(InsertSession(sessions, id1, sessionId, m1), id2, sessionId, m2)
            == InsertSession(sessions, id1, sessionId, m1)
  {
  }

  lemma {:induction false} InsertSessionKeepsUnique(sessions: seq<Session>, newId: nat,
                                                    sessionId: string, metadata: Metadata)
    requires UniqueSessionIds(sessions)
    ensures UniqueSessionIds(InsertSession(sessions, newId, sessionId, metadata))
  {
  }

  predicate InSession(m: Message, sessionId: string) { m.sessionId == sessionId }

  /** `SELECT * FROM chat_messages WHERE session_id = ? ORDER BY created_at`,
      with `LIMIT n` appended only when `limit` is truthy. */
  function SessionMessages(messages: seq<Message>, sessionId: string, limit: Option<int>): (r: seq<Message>)
  {
    var rows := Filter(messages, (m: Message) => m.sessionId == sessionId);
    if limit.Some? && limit.value != 0 then LimitRows(rows, limit.value) else rows
  }

  lemma SessionMessagesFacts(messages: seq<Message>, sessionId: string, limit: Option<int>)
    ensures var r := SessionMessages(messages, sessionId, limit);
      var all := Filter(messages, (m: Message) => m.sessionId == sessionId);
      && (forall i :: 0 <= i < |r| ==> r[i].sessionId == sessionId && r[i] in messages)
      && r == all[..|r|]
      && (limit.None? || limit == Some(0) ==> r == all)
      && (limit.Some? && limit.value > 0 ==> |r| == Min(limit.value, |all|))
  {
  }

  /** `DELETE FROM chat_messages WHERE session_id = ?` */
  function ClearSessionRows(messages: seq<Message>, sessionId: string): (r: seq<Message>)
  {
    Filter(messages, (m: Message) => m.sessionId != sessionId)
  }

  /** Clearing removes exactly that session's messages: other sessions keep
      theirs, in the same order. */
  lemma {:induction false} ClearSessionFacts(messages: seq<Message>, sessionId: string, other: string)
    requires other != sessionId
    ensures SessionMessages(ClearSessionRows(messages, sessionId), sessionId, None) == []
    ensures SessionMessages(ClearSessionRows(messages, sessionId), other, None)
            == SessionMessages(messages, other, None)
  {
    if messages != [] {
      ClearSessionFacts(messages[1..], sessionId, other);
    }
  }

  /** The recent sessions query: `ORDER BY created_at DESC LIMIT ?`. */
  function RecentSessions(sessions: seq<Session>, limit: int): (r: seq<Session>)
    ensures limit < 0 ==> |r| == |sessions|
    ensures limit >= 0 ==> |r| == Min(limit, |sessions|)
    ensures forall i :: 0 <= i < |r| ==> r[i] == sessions[|sessions| - 1 - i]
  {
    LimitRows(Reverse(sessions), limit)
  }

  function Reverse<T>(s: seq<T>): (r: seq<T>)
    ensures |r| == |s|
    ensures forall i :: 0 <= i < |s| ==> r[i] == s[|s| - 1 - i]
  {
    if s == [] then [] else Reverse(s[1..]) + [s[0]]
  }

  // ---------------------------------------------------------------------
  // The storage object
  // ---------------------------------------------------------------------

  class SqliteStorage {
    var jobs: seq<Job>
    var sessions: seq<Session>
    var messages: seq<Message>
    /** AUTOINCREMENT counters: the largest id handed out so far. */
    var lastJobId: nat
    var lastSessionId: nat
    var lastMessageId: nat

    ghost predicate Valid()
      reads this
    {
      && UniqueDocIds(jobs)
      && UniqueSessionIds(sessions)
      && (forall i :: 0 <= i < |jobs| ==> jobs[i].id <= lastJobId)
    }

    /** `initialize`: the three empty tables. */
    constructor()
      ensures Valid()
      ensures jobs == [] && sessions == [] && messages == []
      ensures lastJobId == 0 && lastSessionId == 0 && lastMessageId == 0
    {
      jobs := [];
      sessions := [];
      messages := [];
      lastJobId := 0;
      lastSessionId := 0;
      lastMessageId := 0;
    }

    /** `add_job`: inserts one pending row and returns its id; the UNIQUE
        doc_id makes the insert fail (None) when the id is taken. */
    method AddJob(docId: string, filePath: string, language: string,
                  metadata: Option<Metadata>, now: nat) returns (rowId: Option<nat>)
      requires Valid()
      modifies this
      ensures Valid()
      ensures FindJob(old(jobs), docId).Some? ==> rowId.None? && jobs == old(jobs) && lastJobId == old(lastJobId)
      ensures FindJob(old(jobs), docId).None? ==>
                && rowId == Some(old(lastJobId) + 1)
                && lastJobId == old(lastJobId) + 1
                && jobs == old(jobs) + [Job(old(lastJobId) + 1, docId, filePath, language, Pending,
                                            None, OrEmpty(metadata), now)]
      ensures sessions == old(sessions) && messages == old(messages)
      ensures lastSessionId == old(lastSessionId) && lastMessageId == old(lastMessageId)
    {
      if FindJob(jobs, docId).Some? {
        rowId := None;
      } else {
        lastJobId := lastJobId + 1;
        jobs := jobs + [Job(lastJobId, docId, filePath, language, Pending, None, OrEmpty(metadata), now)];
        rowId := Some(lastJobId);
      }
    }

    /** `get_pending_jobs` */
    method GetPendingJobs(limit: int) returns (r: seq<Job>)
      ensures r == PendingJobs(jobs, limit)
    {
      r := PendingJobs(jobs, limit);
    }

    /** `update_job_status`; an omitted error message clears the column. */
    method UpdateJobStatus(docId: string, status: JobStatus, errorMessage: Option<string>, now: nat)
      requires Valid()
      modifies this
      ensures Valid()
      ensures jobs == UpdateStatus(old(jobs), docId, status, errorMessage, now)
      ensures sessions == old(sessions) && messages == old(messages)
      ensures lastJobId == old(lastJobId) && lastSessionId == old(lastSessionId)
      ensures lastMessageId == old(lastMessageId)
    {
      UpdateStatusFacts(jobs, docId, status, errorMessage, now);
      jobs := UpdateStatus(jobs, docId, status, errorMessage, now);
    }

    /** `get_job` */
    method GetJob(docId: string) returns (r: Option<Job>)
      ensures r == FindJob(jobs, docId)
    {
      r := FindJob(jobs, docId);
    }

    /** `create_session` (INSERT OR IGNORE). */
    method CreateSession(sessionId: string, metadata: Option<Metadata>)
      requires Valid()
      modifies this
      ensures Valid()
      ensures sessions == InsertSession(old(sessions), old(lastSessionId) + 1, sessionId, OrEmpty(metadata))
      ensures jobs == old(jobs) && messages == old(messages)
      ensures lastJobId == old(lastJobId) && lastMessageId == old(lastMessageId)
    {
      InsertSessionKeepsUnique(sessions, lastSessionId + 1, sessionId, OrEmpty(metadata));
      if !HasSession(sessions, sessionId) {
        lastSessionId := lastSessionId + 1;
        sessions := sessions + [Session(lastSessionId, sessionId, OrEmpty(metadata))];
      }
    }

    /** `add_message`: appended, whether or not the session row exists
        (SQLite does not enforce the foreign key by default). */
    method AddMessage(sessionId: string, role: string, content: string, metadata: Option<Metadata>)
      requires Valid()
      modifies this
      ensures Valid()
      ensures messages == old(messages) + [Message(old(lastMessageId) + 1, sessionId, role, content, OrEmpty(metadata))]
      ensures lastMessageId == old(lastMessageId) + 1
      ensures jobs == old(jobs) && sessions == old(sessions)
      ensures lastJobId == old(lastJobId) && lastSessionId == old(lastSessionId)
    {
      lastMessageId := lastMessageId + 1;
      messages := messages + [Message(lastMessageId, sessionId, role, content, OrEmpty(metadata))];
    }

    /** `get_session_messages` */
    method GetSessionMessages(sessionId: string, limit: Option<int>) returns (r: seq<Message>)
      ensures r == SessionMessages(messages, sessionId, limit)
    {
      r := SessionMessages(messages, sessionId, limit);
    }

    /** `get_recent_sessions` */
    method GetRecentSessions(limit: int) returns (r: seq<Session>)
      ensures r == RecentSessions(sessions, limit)
    {
      r := RecentSessions(sessions, limit);
    }

    /** `clear_session`: the session row itself stays. */
    method ClearSession(sessionId: string)
      requires Valid()
      modifies this
      ensures Valid()
      ensures messages == ClearSessionRows(old(messages), sessionId)
      ensures jobs == old(jobs) && sessions == old(sessions)
      ensures lastJobId == old(lastJobId) && lastSessionId == old(lastSessionId)
      ensures lastMessageId == old(lastMessageId)
    {
      messages := ClearSessionRows(messages, sessionId);
    }
  }
}
