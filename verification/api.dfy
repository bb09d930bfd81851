/** The HTTP endpoints of the backend over its two in-memory registries: the
    job records by job id and the chat histories by session id.

    Each endpoint is a function from the registries (and its request) to the
    new registries and its reply. Fresh ids (`uuid4`) and timestamps
    (`datetime.now().isoformat()`) are parameters, and so are the engine and
    the services the background task uses. */
module Api {
  import opened Wrappers
  import opened Jobs
  import Ingestion
  import Answers

  datatype Registry = Registry(jobs: map<string, Job>, sessions: map<string, seq<Answers.Message>>)

  /** An `HTTPException`: its status code and detail text. */
  datatype HttpError = HttpError(status: nat, detail: string)

  /** The registries after a request, and its reply or the HTTP error it raised. */
  datatype Step<T> = Step(registry: Registry, reply: Result<T, HttpError>)

  // ----- uploads and jobs -----

  datatype UploadAccepted = UploadAccepted(jobId: string, message: string, totalFiles: nat)

  const UploadedReply := "Files uploaded successfully"

  /** `POST /upload-files`: validation, then one new job record. */
  function UploadFiles(reg: Registry, jobId: string, files: seq<Upload>): (s: Step<UploadAccepted>)
    ensures ValidateUpload(files).Some? ==>
      s == Step(reg, Failure(HttpError(400, ValidateUpload(files).value)))
    ensures ValidateUpload(files).None? ==>
      && s.reply == Success(UploadAccepted(jobId, UploadedReply, |files|))
      && s.registry.sessions == reg.sessions
      && s.registry.jobs.Keys == reg.jobs.Keys + {jobId}
      && s.registry.jobs[jobId] == NewJob(jobId, files)
      && forall id :: id in reg.jobs && id != jobId ==> s.registry.jobs[id] == reg.jobs[id]
  {
    match ValidateUpload(files)
    case Some(e) => Step(reg, Failure(HttpError(400, e)))
    case None =>
      Step(reg.(jobs := reg.jobs[jobId := NewJob(jobId, files)]), Success(UploadAccepted(jobId, UploadedReply, |files|)))
  }

  /** The background task run for `jobId` over the saved files. A job id with
      no record makes the background task fail on its first write, leaving everything as it was. */
  function ProcessDocuments(reg: Registry, sv: Ingestion.Services, jobId: string, files: seq<FileInfo>): (r: Registry)
    ensures jobId !in reg.jobs ==> r == reg
    ensures r.sessions == reg.sessions && r.jobs.Keys == reg.jobs.Keys
    ensures forall id :: id in reg.jobs && id != jobId ==> r.jobs[id] == reg.jobs[id]
  {
    if jobId in reg.jobs then
      reg.(jobs := reg.jobs[jobId := After(reg.jobs[jobId], Ingestion.TaskWrites(sv, jobId, files))])
    else reg
  }

  const JobNotFound := "Job not found"

  /** `GET /upload-status/{job_id}`: the stored record, or 404. */
  function GetUploadStatus(reg: Registry, jobId: string): (r: Result<Job, HttpError>)
    ensures r.Success? <==> jobId in reg.jobs
    ensures r.Success? ==> r.value == reg.jobs[jobId]
    ensures r.Failure? ==> r.error == HttpError(404, JobNotFound)
  {
    if jobId in reg.jobs then Success(reg.jobs[jobId]) else Failure(HttpError(404, JobNotFound))
  }

  /** An accepted upload leaves a pending job at 0% in the registry, before
      the background task runs. */
  lemma UploadThenStatus(reg: Registry, jobId: string, files: seq<Upload>)
    requires ValidateUpload(files).None?
    ensures var r := GetUploadStatus(UploadFiles(reg, jobId, files).registry, jobId);
      r.Success? && r.value.status == Pending && r.value.progress == 0 && r.value.totalFiles == |files|
  {
  }

  /** A rejected upload leaves no trace: an unknown job id stays unknown. */
  lemma RejectedUploadUnknown(reg: Registry, jobId: string, files: seq<Upload>)
    requires ValidateUpload(files).Some? && jobId !in reg.jobs
    ensures GetUploadStatus(UploadFiles(reg, jobId, files).registry, jobId) == Failure(HttpError(404, JobNotFound))
  {
  }

  /** After an accepted upload and its background run, the job is completed or
      failed; it is completed with progress 100 exactly when every file was
      read and stored, and otherwise reports the error. */
  lemma UploadThenProcess(reg: Registry, sv: Ingestion.Services, jobId: string, files: seq<Upload>)
    requires ValidateUpload(files).None?
    ensures var saved := SavedFiles(jobId, files);
      var r := GetUploadStatus(ProcessDocuments(UploadFiles(reg, jobId, files).registry, sv, jobId, saved), jobId);
      && r.Success?
      && r.value.totalFiles == |files| && r.value.files == saved
      && (r.value.status == Completed <==> Ingestion.TaskError(sv, jobId, saved).None?)
      && (r.value.status == Completed ==> r.value.progress == 100 && r.value.filesProcessed == |files|)
      && (r.value.status != Completed ==>
            r.value.status == Failed && r.value.progress < 100
            && r.value.message == Ingestion.FailurePrefix + Ingestion.TaskError(sv, jobId, saved).value)
  {
    var saved := SavedFiles(jobId, files);
    Ingestion.TaskOutcome(NewJob(jobId, files), sv, jobId, saved);
  }

  // ----- chat -----

  datatype ChatReply = ChatReply(response: string, sources: seq<Answers.SourceRef>, sessionId: string)

  /** `chat_message.session_id or str(uuid.uuid4())`: an absent or empty id gets the fresh one. */
  function SessionIdFor(requested: Option<string>, freshId: string): (id: string)
    ensures requested.Some? && requested.value != [] ==> id == requested.value
    ensures requested.None? || requested.value == [] ==> id == freshId
  {
    if requested.Some? && requested.value != [] then requested.value else freshId
  }

  /** The registries once the session exists: created empty when absent. */
  function WithSession(reg: Registry, id: string): (r: Registry)
    ensures id in r.sessions && r.jobs == reg.jobs
    ensures id in reg.sessions ==> r == reg
    ensures id !in reg.sessions ==> r.sessions == reg.sessions[id := []]
  {
    if id in reg.sessions then reg else reg.(sessions := reg.sessions[id := []])
  }

  /** `POST /chat`. The engine sees the history as it was before this
      message. Only the request's own session changes: it is created when
      absent, gains exactly the question and the answer after the old messages
      when the engine answers, and keeps its messages when the engine fails.
      Jobs are untouched. Both stamps are clock readings taken once the
      engine has answered, one per stored message. */
  function Chat(reg: Registry, rag: Answers.Rag, message: string, requested: Option<string>,
                freshId: string, userStamp: string, assistantStamp: string): (s: Step<ChatReply>)
    ensures var id := SessionIdFor(requested, freshId);
      var before := if id in reg.sessions then reg.sessions[id] else [];
      var answer := Answers.GetResponse(rag, message, before);
      && s.registry.jobs == reg.jobs
      && s.registry.sessions.Keys == reg.sessions.Keys + {id}
      && (forall other :: other in reg.sessions && other != id ==> s.registry.sessions[other] == reg.sessions[other])
      && (answer.Failure? ==>
            s.reply == Failure(HttpError(500, Answers.ResponseErrorPrefix + answer.error))
            && s.registry.sessions[id] == before)
      && (answer.Success? ==>
            && s.reply == Success(ChatReply(answer.value.response, answer.value.sources, id))
            && |s.registry.sessions[id]| == |before| + 2
            && s.registry.sessions[id][..|before|] == before
            && s.registry.sessions[id][|before|] == Answers.Message(Answers.User, message, userStamp)
            && s.registry.sessions[id][|before| + 1] == Answers.Message(Answers.Assistant, answer.value.response, assistantStamp))
  {
    var id := SessionIdFor(requested, freshId);
    var reg1 := WithSession(reg, id);
    var history := reg1.sessions[id];
    match Answers.GetResponse(rag, message, history)
    case Failure(e) => Step(reg1, Failure(HttpError(500, Answers.ResponseErrorPrefix + e)))
    case Success(answer) =>
      var turn := [Answers.Message(Answers.User, message, userStamp), Answers.Message(Answers.Assistant, answer.response, assistantStamp)];
      Step(reg1.(sessions := reg1.sessions[id := history + turn]), Success(ChatReply(answer.response, answer.sources, id)))
  }

  /** A session's next answer sees at most its last four messages, so the
      two exchanges before it. */
  lemma ChatSeesLastFour(reg: Registry, rag: Answers.Rag, message: string, id: string, older: seq<Answers.Message>,
                         recent: seq<Answers.Message>, freshId: string, userStamp: string, assistantStamp: string)
    requires id != [] && id in reg.sessions && reg.sessions[id] == older + recent && |recent| == 4
    ensures Chat(reg, rag, message, Some(id), freshId, userStamp, assistantStamp).reply
         == Chat(reg.(sessions := reg.sessions[id := recent]), rag, message, Some(id), freshId, userStamp, assistantStamp).reply
  {
    var reg2 := reg.(sessions := reg.sessions[id := recent]);
    assert SessionIdFor(Some(id), freshId) == id;
    assert WithSession(reg, id).sessions[id] == older + recent;
    assert WithSession(reg2, id).sessions[id] == recent;
    Answers.ResponseSeesLastFourMessages(rag, message, older, recent);
  }

  datatype History = History(sessionId: string, history: seq<Answers.Message>)

  /** `GET /chat/history/{session_id}`: the stored messages, or none for an
      unknown session, which is not created. */
  function GetChatHistory(reg: Registry, id: string): (h: History)
    ensures h.sessionId == id
    ensures id in reg.sessions ==> h.history == reg.sessions[id]
    ensures id !in reg.sessions ==> h.history == []
  {
    History(id, if id in reg.sessions then reg.sessions[id] else [])
  }

  datatype Cleared = Cleared(message: string, sessionId: string)

  const ClearedReply := "Chat history cleared"

  /** `DELETE /chat/clear/{session_id}`: an existing session is emptied; an
      unknown one is not created. The reply is the same either way. */
  function ClearChat(reg: Registry, id: string): (s: Step<Cleared>)
    ensures s.reply == Success(Cleared(ClearedReply, id))
    ensures s.registry.jobs == reg.jobs && s.registry.sessions.Keys == reg.sessions.Keys
    ensures id in reg.sessions ==> s.registry.sessions[id] == []
    ensures forall other :: other in reg.sessions && other != id ==> s.registry.sessions[other] == reg.sessions[other]
  {
    var sessions := if id in reg.sessions then reg.sessions[id := []] else reg.sessions;
    Step(reg.(sessions := sessions), Success(Cleared(ClearedReply, id)))
  }

  /** After clearing, the history reads back empty, whether or not the session existed. */
  lemma ClearThenHistory(reg: Registry, id: string)
    ensures GetChatHistory(ClearChat(reg, id).registry, id) == History(id, [])
  {
  }

  /** After a successful chat, the history reads back with the two new
      messages at its end. */
  lemma ChatThenHistory(reg: Registry, rag: Answers.Rag, message: string, id: string,
                        freshId: string, userStamp: string, assistantStamp: string)
    requires id != []
    requires Chat(reg, rag, message, Some(id), freshId, userStamp, assistantStamp).reply.Success?
    ensures var before := GetChatHistory(reg, id).history;
      var after := GetChatHistory(Chat(reg, rag, message, Some(id), freshId, userStamp, assistantStamp).registry, id).history;
      && |after| == |before| + 2 && after[..|before|] == before
      && after[|before|].role == Answers.User && after[|before|].content == message
      && after[|before| + 1].role == Answers.Assistant
      && after[|before| + 1].content == Chat(reg, rag, message, Some(id), freshId, userStamp, assistantStamp).reply.value.response
  {
  }

  // ----- health -----

  datatype Health = Health(status: string, indexConnected: bool, activeJobs: nat, activeSessions: nat)

  /** `GET /health`; whether the index answers is a parameter. */
  function HealthCheck(reg: Registry, indexConnected: bool): (h: Health)
    ensures h.status == "healthy" && h.indexConnected == indexConnected
    ensures h.activeJobs == |reg.jobs.Keys| && h.activeSessions == |reg.sessions.Keys|
  {
    Health("healthy", indexConnected, |reg.jobs|, |reg.sessions|)
  }

  /** Accepting an upload with a new job id counts one more job; nothing ever
      removes a job or a session, and clearing a chat counts the same. */
  lemma HealthCounts(reg: Registry, jobId: string, files: seq<Upload>, id: string, sv: Ingestion.Services, saved: seq<FileInfo>)
    requires ValidateUpload(files).None? && jobId !in reg.jobs
    ensures HealthCheck(UploadFiles(reg, jobId, files).registry, true).activeJobs == |reg.jobs| + 1
    ensures HealthCheck(ClearChat(reg, id).registry, true) == HealthCheck(reg, true)
    ensures HealthCheck(ProcessDocuments(reg, sv, jobId, saved), true) == HealthCheck(reg, true)
  {
    var after := UploadFiles(reg, jobId, files).registry;
    assert after.jobs.Keys == reg.jobs.Keys + {jobId};
  }
}
