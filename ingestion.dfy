/** src/agents/ingestion_agent.py: deciding whether a new PDF is queued, and
    moving jobs through pending -> processing -> completed / failed. The file
    system (existence check, copy) and the file hash are parameters. */
module Ingestion {
  import opened Seqs
  import Utils
  import opened Storage

  /** What `process_new_file` did; the source only logs it. */
  datatype Outcome = FileMissing | NoLanguage | AlreadyQueued(docId: string)
                   | CopyFailed | Queued(docId: string)

  /** A file as seen on disk: its name, stem, full path, parent directory
      name, and the SHA-256 of its bytes. */
  datatype IncomingFile = IncomingFile(name: string, stem: string, path: string,
                                       parentName: string, fileHash: string)

  function DestPath(processingDir: string, docId: string): string
  {
    processingDir + "/" + docId + ".pdf"
  }

  function JobMetadata(f: IncomingFile): Metadata
  {
    map["original_filename" := f.name, "original_path" := f.path]
  }

  /** `process_new_file`. Every error is logged and swallowed, so a failed
      copy or insert queues nothing and raises nothing. */
  method ProcessNewFile(store: SqliteStorage, f: IncomingFile, fileExists: bool,
                        processingDir: string, copySucceeds: bool, now: nat)
    returns (outcome: Outcome)
    requires store.Valid()
    modifies store
    ensures store.Valid()
    ensures !fileExists ==> outcome == FileMissing && store.jobs == old(store.jobs)
    ensures fileExists && f.parentName !in Utils.LanguageDirs ==>
              outcome == NoLanguage && store.jobs == old(store.jobs)
    ensures fileExists && f.parentName in Utils.LanguageDirs ==>
              var docId := Utils.GenerateDocId(f.stem, f.parentName, f.fileHash);
              && (FindJob(old(store.jobs), docId).Some? ==> outcome == AlreadyQueued(docId))
              && (FindJob(old(store.jobs), docId).None? && !copySucceeds ==> outcome == CopyFailed)
              && (FindJob(old(store.jobs), docId).None? && copySucceeds ==> outcome == Queued(docId))
    ensures outcome.Queued? ==>
              && fileExists && copySucceeds
              && var docId := Utils.GenerateDocId(f.stem, f.parentName, f.fileHash);
              && outcome.docId == docId
              && FindJob(old(store.jobs), docId).None?
              && store.jobs == old(store.jobs) + [Job(old(store.lastJobId) + 1, docId,
                                   DestPath(processingDir, docId), f.parentName, Pending,
                                   None, JobMetadata(f), now)]
    ensures !outcome.Queued? ==> store.jobs == old(store.jobs)
    ensures outcome.AlreadyQueued? ==> FindJob(old(store.jobs), outcome.docId).Some?
    ensures store.sessions == old(store.sessions) && store.messages == old(store.messages)
  {
    if !fileExists {
      return FileMissing;
    }
    var language := Utils.DetectLanguageFromPath(f.parentName);
    if language.None? {
      return NoLanguage;
    }
    var docId := Utils.GenerateDocId(f.stem, language.value, f.fileHash);
    var existing := store.GetJob(docId);
    if existing.Some? {
      return AlreadyQueued(docId);
    }
    if !copySucceeds {
      return CopyFailed;
    }
    var rowId := store.AddJob(docId, DestPath(processingDir, docId), language.value,
                              Some(JobMetadata(f)), now);
    outcome := Queued(docId);
  }

  /** `get_next_job`: the oldest pending job, now marked processing in the
      table; the returned row still carries its pending status. */
  method GetNextJob(store: SqliteStorage, now: nat) returns (job: Option<Job>)
    requires store.Valid()
    modifies store
    ensures store.Valid()
    ensures PendingJobs(old(store.jobs), 1) == [] ==> job.None? && store.jobs == old(store.jobs)
    ensures PendingJobs(old(store.jobs), 1) != [] ==>
              && job == Some(PendingJobs(old(store.jobs), 1)[0])
              && job.value.status == Pending
              && store.jobs == UpdateStatus(old(store.jobs), job.value.docId, Processing, None, now)
    ensures store.sessions == old(store.sessions) && store.messages == old(store.messages)
  {
    var pending := store.GetPendingJobs(1);
    PendingJobsFacts(store.jobs, 1);
    if pending == [] {
      return None;
    }
    job := Some(pending[0]);
    store.UpdateJobStatus(pending[0].docId, Processing, None, now);
  }

  /** After `get_next_job` the job it returned is stored as processing. */
  lemma NextJobBecomesProcessing(jobs: seq<Job>, now: nat)
    requires UniqueDocIds(jobs)
    requires PendingJobs(jobs, 1) != []
    ensures var j := PendingJobs(jobs, 1)[0];
      && FindJob(jobs, j.docId) == Some(j)
      && FindJob(UpdateStatus(jobs, j.docId, Processing, None, now), j.docId)
         == Some(j.(status := Processing, errorMessage := None, updatedAt := now))
  {
    var j := PendingJobs(jobs, 1)[0];
    PendingJobsFacts(jobs, 1);
    var k :| 0 <= k < |jobs| && jobs[k] == j;
    FindJobUnique(jobs, j.docId);
    UpdateStatusFacts(jobs, j.docId, Processing, None, now);
  }

  /** `mark_job_completed` */
  method MarkJobCompleted(store: SqliteStorage, docId: string, now: nat)
    requires store.Valid()
    modifies store
    ensures store.Valid()
    ensures store.jobs == UpdateStatus(old(store.jobs), docId, Completed, None, now)
    ensures store.sessions == old(store.sessions) && store.messages == old(store.messages)
  {
    store.UpdateJobStatus(docId, Completed, None, now);
  }

  /** `mark_job_failed` */
  method MarkJobFailed(store: SqliteStorage, docId: string, errorMessage: string, now: nat)
    requires store.Valid()
    modifies store
    ensures store.Valid()
    ensures store.jobs == UpdateStatus(old(store.jobs), docId, Failed, Some(errorMessage), now)
    ensures store.sessions == old(store.sessions) && store.messages == old(store.messages)
  {
    store.UpdateJobStatus(docId, Failed, Some(errorMessage), now);
  }

  /** A job that is marked failed keeps the message; a completed one has
      none. */
  lemma MarkOutcomeRecorded(jobs: seq<Job>, docId: string, msg: string, now: nat)
    requires UniqueDocIds(jobs)
    requires FindJob(jobs, docId).Some?
    ensures FindJob(UpdateStatus(jobs, docId, Failed, Some(msg), now), docId).value.status == Failed
    ensures FindJob(UpdateStatus(jobs, docId, Failed, Some(msg), now), docId).value.errorMessage == Some(msg)
    ensures FindJob(UpdateStatus(jobs, docId, Completed, None, now), docId).value.status == Completed
    ensures FindJob(UpdateStatus(jobs, docId, Completed, None, now), docId).value.errorMessage.None?
  {
    UpdateStatusFacts(jobs, docId, Failed, Some(msg), now);
    UpdateStatusFacts(jobs, docId, Completed, None, now);
  }
}
