/** The exact Todoist adapter: payload validation, target identity, write and readback. */
module TodoistAdapter {
  import opened Common
  import opened ExecutionJournal
  import opened JournalGuarantees
  import opened AttendedExecution
  import opened ExecutionMeaning
  import opened TodoistTarget

  /** A payload value: absent keys are missing from the map; `Other` is any non-string value. */
  datatype Value = Null | Text(text: string) | Other

  type PayloadData = map<string, Value>

  datatype ResolvedPayload = ResolvedPayload(operationId: string, payloadDigest: string, data: PayloadData)

  datatype CreateFields = CreateFields(
    content: string, projectId: string, sectionId: Option<string>, parentId: Option<string>, description: string)

  datatype Task = Task(id: string, fields: CreateFields)

  /** The digest of a task's projection, which is its five content fields. */
  type ProjectionDigest = CreateFields -> string

  datatype AdapterError =
    | IdsRequired
    | WrongProvider
    | UnsupportedAction
    | PayloadForOtherOperation
    | PayloadDigestMismatch
    | UnsupportedFields
    | FieldRequired(field: string)
    | FieldNotStringOrNull(field: string)
    | DescriptionNotString
    | TargetDisagrees
    | TaskNotFound

  const ALLOWED := {"content", "project_id", "section_id", "parent_id", "description"}

  function RequiredString(data: PayloadData, field: string): Result<string, AdapterError> {
    if field in data && data[field].Text? && !Blank(data[field].text) then Ok(data[field].text)
    else Err(FieldRequired(field))
  }

  function OptionalString(data: PayloadData, field: string): Result<Option<string>, AdapterError> {
    if field !in data || data[field].Null? then Ok(None)
    else if data[field].Text? && !Blank(data[field].text) then Ok(Some(data[field].text))
    else Err(FieldNotStringOrNull(field))
  }

  function Description(data: PayloadData): Result<string, AdapterError> {
    if "description" !in data then Ok("")
    else if data["description"].Text? then Ok(data["description"].text)
    else Err(DescriptionNotString)
  }

  function ValidateCreatePayload(data: PayloadData): Result<CreateFields, AdapterError> {
    if !(data.Keys <= ALLOWED) then Err(UnsupportedFields)
    else
      var content := RequiredString(data, "content");
      if content.Err? then Err(content.error)
      else
        var projectId := RequiredString(data, "project_id");
        if projectId.Err? then Err(projectId.error)
        else
          var sectionId := OptionalString(data, "section_id");
          if sectionId.Err? then Err(sectionId.error)
          else
            var parentId := OptionalString(data, "parent_id");
            if parentId.Err? then Err(parentId.error)
            else
              var description := Description(data);
              if description.Err? then Err(description.error)
              else Ok(CreateFields(content.value, projectId.value, sectionId.value, parentId.value, description.value))
  }

  // --- write and readback ----------------------------------------------------------------

  /** The checks `write` makes before it calls the client. */
  function CheckWrite(operation: PlannedOperation, authorizationId: string, t: string, payload: ResolvedPayload)
    : Result<CreateFields, AdapterError>
  {
    if Blank(authorizationId) || Blank(t) then Err(IdsRequired)
    else if operation.provider != "todoist" then Err(WrongProvider)
    else if operation.action != "create" then Err(UnsupportedAction)
    else if payload.operationId != operation.operationId then Err(PayloadForOtherOperation)
    else if payload.payloadDigest != operation.payloadDigest then Err(PayloadDigestMismatch)
    else
      var fields := ValidateCreatePayload(payload.data);
      if fields.Err? then fields
      else if operation.target != TargetOf(fields.value.projectId, fields.value.sectionId, fields.value.parentId) then
        Err(TargetDisagrees)
      else fields
  }

  function WriteReceiptFor(operation: PlannedOperation, created: Task, digest: ProjectionDigest): WriteReceipt {
    WriteReceipt(operation.operationId, "todoist", created.id, operation.idempotencyKey, digest(created.fields), true)
  }

  function ReadbackReceiptFor(receipt: WriteReceipt, seen: Task, digest: ProjectionDigest): ReadbackReceipt {
    ReadbackReceipt(receipt.operationId, seen.id, digest(seen.fields))
  }

  /** What a client asks the server to create, and under which key. */
  datatype CreateRequest = CreateRequest(fields: CreateFields, idempotencyKey: string)

  /** The client's tasks, which other parties may change between calls, and the creations asked for. */
  class TodoistClient {
    var tasks: map<string, Task>
    ghost var requests: seq<CreateRequest>

    constructor (tasks: map<string, Task>)
      ensures this.tasks == tasks && requests == []
    {
      this.tasks := tasks;
      this.requests := [];
    }

    /** The server is asked for `fields` and stores and returns a task of its own making. */
    method CreateTask(fields: CreateFields, idempotencyKey: string, made: Task) returns (task: Task)
      modifies this
      ensures task == made && tasks == old(tasks)[made.id := made]
      ensures requests == old(requests) + [CreateRequest(fields, idempotencyKey)]
    {
      task := made;
      tasks := tasks[made.id := made];
      requests := requests + [CreateRequest(fields, idempotencyKey)];
    }

    method GetTask(id: string) returns (task: Option<Task>)
      ensures task == Lookup(tasks, id)
    {
      task := Lookup(tasks, id);
    }
  }

  method Write(client: TodoistClient, operation: PlannedOperation, authorizationId: string, t: string,
               payload: ResolvedPayload, made: Task, digest: ProjectionDigest)
    returns (r: Result<WriteReceipt, AdapterError>)
    modifies client
    ensures
      var checked := CheckWrite(operation, authorizationId, t, payload);
      if checked.Err? then
        r == Err(checked.error) && client.tasks == old(client.tasks) && client.requests == old(client.requests)
      else
        && r == Ok(WriteReceiptFor(operation, made, digest))
        && client.tasks == old(client.tasks)[made.id := made]
        && client.requests == old(client.requests) + [CreateRequest(checked.value, operation.idempotencyKey)]
  {
    if Blank(authorizationId) || Blank(t) { return Err(IdsRequired); }
    if operation.provider != "todoist" { return Err(WrongProvider); }
    if operation.action != "create" { return Err(UnsupportedAction); }
    if payload.operationId != operation.operationId { return Err(PayloadForOtherOperation); }
    if payload.payloadDigest != operation.payloadDigest { return Err(PayloadDigestMismatch); }
    var fields := ValidateCreatePayload(payload.data);
    if fields.Err? { return Err(fields.error); }
    var v := fields.value;
    if operation.target != TargetOf(v.projectId, v.sectionId, v.parentId) { return Err(TargetDisagrees); }
    var task := client.CreateTask(v, operation.idempotencyKey, made);
    r := Ok(WriteReceiptFor(operation, task, digest));
  }

  method Readback(client: TodoistClient, receipt: WriteReceipt, digest: ProjectionDigest)
    returns (r: Result<ReadbackReceipt, AdapterError>)
    ensures
      if receipt.provider != "todoist" then r == Err(WrongProvider)
      else if receipt.providerRecordId !in client.tasks then r == Err(TaskNotFound)
      else r == Ok(ReadbackReceiptFor(receipt, client.tasks[receipt.providerRecordId], digest))
  {
    if receipt.provider != "todoist" { return Err(WrongProvider); }
    var task := client.GetTask(receipt.providerRecordId);
    if task.None? { return Err(TaskNotFound); }
    r := Ok(ReadbackReceiptFor(receipt, task.value, digest));
  }

  // --- What a write needs ----------------------------------------------------------------

  predicate CarriesOptional(data: PayloadData, field: string, id: Option<string>) {
    match id
    case None => field !in data || data[field].Null?
    case Some(text) => field in data && data[field] == Text(text) && !Blank(text)
  }

  /** The payload holds exactly these fields, and nothing it may not hold. */
  predicate Carries(data: PayloadData, f: CreateFields) {
    && (forall k :: k in data ==> k in {"content", "project_id", "section_id", "parent_id", "description"})
    && "content" in data && data["content"] == Text(f.content) && !Blank(f.content)
    && "project_id" in data && data["project_id"] == Text(f.projectId) && !Blank(f.projectId)
    && CarriesOptional(data, "section_id", f.sectionId)
    && CarriesOptional(data, "parent_id", f.parentId)
    && (if "description" in data then data["description"] == Text(f.description) else f.description == "")
  }

  /** The target spells out the place these fields name. */
  predicate NamesPlace(target: string, f: CreateFields) {
    target == "project:"
              + (f.projectId + (if f.sectionId.Some? then "/section:" + f.sectionId.value else "")
                 + (if f.parentId.Some? then "/parent:" + f.parentId.value else ""))
  }

  lemma {:induction false} PayloadCarries(data: PayloadData, f: CreateFields)
    ensures ValidateCreatePayload(data) == Ok(f) <==> Carries(data, f)
  {
  }

  /**
    A write goes ahead with these fields exactly when the ids are given, the operation is a Todoist
    create, the payload is bound to it by id and digest and carries exactly these fields, and the
    operation's target names their place.
   */
  lemma {:induction false} WriteGoesAheadIff(
      operation: PlannedOperation, authorizationId: string, t: string, payload: ResolvedPayload, f: CreateFields)
    ensures CheckWrite(operation, authorizationId, t, payload) == Ok(f)
       <==> && !Blank(authorizationId) && !Blank(t)
            && operation.provider == "todoist" && operation.action == "create"
            && payload.operationId == operation.operationId && payload.payloadDigest == operation.payloadDigest
            && Carries(payload.data, f) && NamesPlace(operation.target, f)
  {
    PayloadCarries(payload.data, f);
    TargetIsWritten(Destination(f.projectId, f.sectionId, f.parentId));
  }

  /** A payload for another place, or bound to another digest, is refused. */
  lemma {:induction false} OtherPayloadRefused(
      operation: PlannedOperation, authorizationId: string, t: string, payload: ResolvedPayload, f: CreateFields)
    requires Carries(payload.data, f)
    requires !NamesPlace(operation.target, f) || payload.payloadDigest != operation.payloadDigest
             || payload.operationId != operation.operationId
    ensures CheckWrite(operation, authorizationId, t, payload).Err?
  {
    PayloadCarries(payload.data, f);
    var checked := CheckWrite(operation, authorizationId, t, payload);
    if checked.Ok? {
      WriteGoesAheadIff(operation, authorizationId, t, payload, checked.value);
    }
  }

  // --- Adapter and journal together ------------------------------------------------------

  /** The state of the operation's row. */
  ghost predicate OperationVerified(j: Journal, t: string, operation: PlannedOperation) {
    exists n :: 0 <= n < |RowsOf(j, t)| && RowsOf(j, t)[n].operation == operation && RowsOf(j, t)[n].state.OpVerified?
  }

  /** The task read back is the one created and its projection still has the digest it was created with. */
  predicate SameProjection(created: Task, seen: Task, digest: ProjectionDigest) {
    seen.id == created.id && digest(seen.fields) == digest(created.fields)
  }

  /**
    For an operation the journal knows, the receipt of a successful write is always accepted,
    whatever task the server made; and the readback leaves the operation verified exactly when it
    finds that task with the projection digest recorded at write time.
   */
  lemma {:induction false} AdapterMeetsJournal(
      j: Journal, operation: PlannedOperation, authorizationId: string, t: string,
      payload: ResolvedPayload, created: Task, seen: Task, digest: ProjectionDigest)
    requires Inv(j) && Knows(j, t, operation)
    requires CheckWrite(operation, authorizationId, t, payload).Ok?
    ensures
      var write := WriteReceiptFor(operation, created, digest);
      var readback := ReadbackReceiptFor(write, seen, digest);
      var (written, refusal) := RecordWrite(j, operation, write, t);
      var (read, mismatch) := RecordReadback(written, readback, t);
      && refusal.None?
      && !OperationVerified(written, t, operation)
      && (mismatch.None? <==> SameProjection(created, seen, digest))
      && (OperationVerified(read, t, operation) <==> SameProjection(created, seen, digest))
  {
    var n := KnownRow(j, t, operation);
    var write := WriteReceiptFor(operation, created, digest);
    var readback := ReadbackReceiptFor(write, seen, digest);
    var written := RecordWrite(j, operation, write, t).0;
    WriteKeeps(j, operation, write, t);
    assert RowsOf(written, t)[n] == MarkWritten(RowsOf(j, t)[n], write);
    var m := KnownRow(written, t, operation);
    assert TransactionConsistent(written, t);
    var read := RecordReadback(written, readback, t).0;
    if SameProjection(created, seen, digest) {
      assert RowsOf(read, t)[m].state.OpVerified?;
    }
  }

  // --- Executing a plan through the adapter ----------------------------------------------

  /** One operation as the adapter meets it: its payload, the task the server makes, the task read back. */
  datatype Encounter = Encounter(payload: ResolvedPayload, made: Task, seen: Option<Task>)

  /** The adapter's two calls, with the text of whatever they raise. */
  function Respond(operation: PlannedOperation, authorizationId: string, t: string, e: Encounter,
                   digest: ProjectionDigest, text: AdapterError -> string): Response
  {
    var checked := CheckWrite(operation, authorizationId, t, e.payload);
    if checked.Err? then Response(Err(text(checked.error)), Err(text(TaskNotFound)))
    else
      var write := WriteReceiptFor(operation, e.made, digest);
      Response(Ok(write),
               if e.seen.None? then Err(text(TaskNotFound)) else Ok(ReadbackReceiptFor(write, e.seen.value, digest)))
  }

  /** The payload is exact and the task made is read back with the digest it was made with. */
  predicate Undisturbed(operation: PlannedOperation, authorizationId: string, t: string, e: Encounter,
                        digest: ProjectionDigest)
  {
    && CheckWrite(operation, authorizationId, t, e.payload).Ok?
    && e.seen.Some? && SameProjection(e.made, e.seen.value, digest)
  }

  lemma {:induction false} ConformsIffUndisturbed(
      operation: PlannedOperation, authorizationId: string, t: string, e: Encounter, digest: ProjectionDigest,
      text: AdapterError -> string)
    ensures Conforms(operation, Respond(operation, authorizationId, t, e, digest, text))
       <==> Undisturbed(operation, authorizationId, t, e, digest)
  {
  }

  /**
    A begun Todoist execution completes exactly when every payload is exact and every task the
    server made is read back with the digest it was made with.
   */
  lemma {:induction false} TodoistExecutionCompletesIff(
      j: Journal, plan: AuthorizedPlan, t: string, encounters: seq<Encounter>, responses: seq<Response>,
      digest: ProjectionDigest, adapterText: AdapterError -> string, text: ErrorText)
    requires Inv(j) && Begin(j, plan, t).1.None?
    requires |encounters| == |responses| == |plan.operations|
    requires forall i :: 0 <= i < |responses| ==>
      responses[i] == Respond(plan.operations[i], plan.authorizationId, t, encounters[i], digest, adapterText)
    ensures IsCompleted(Execute(j, plan, t, true, responses, text).0, t)
       <==> forall i :: 0 <= i < |encounters| ==>
              Undisturbed(plan.operations[i], plan.authorizationId, t, encounters[i], digest)
  {
    ExecutionOutcome(j, plan, t, responses, text);
    forall i | 0 <= i < |responses|
      ensures Conforms(plan.operations[i], responses[i])
         <==> Undisturbed(plan.operations[i], plan.authorizationId, t, encounters[i], digest)
    {
      ConformsIffUndisturbed(plan.operations[i], plan.authorizationId, t, encounters[i], digest, adapterText);
    }
  }

  /** Every created task counts as a write, and the receipt carries the digests of what was made and read. */
  lemma {:induction false} TodoistReceipt(
      j: Journal, plan: AuthorizedPlan, t: string, allowed: bool, encounters: seq<Encounter>,
      responses: seq<Response>, digest: ProjectionDigest, adapterText: AdapterError -> string, text: ErrorText)
    requires Inv(j) && |encounters| == |responses| == |plan.operations|
    requires forall i :: 0 <= i < |responses| ==>
      responses[i] == Respond(plan.operations[i], plan.authorizationId, t, encounters[i], digest, adapterText)
    requires Execute(j, plan, t, allowed, responses, text).1.Ok?
    ensures
      var r := Execute(j, plan, t, allowed, responses, text).1.value;
      && r.providerWrites == |plan.operations| == |r.operationReceipts|
      && forall i :: 0 <= i < |plan.operations| ==>
           && encounters[i].seen.Some?
           && r.operationReceipts[i]
              == ExecutedOperation(
                   plan.operations[i].operationId, "todoist", encounters[i].made.id,
                   plan.operations[i].idempotencyKey, digest(encounters[i].made.fields),
                   digest(encounters[i].seen.value.fields), true)
  {
    SucceedsExactly(j, plan, t, allowed, responses, text);
    ReceiptMeaning(j, plan, t, allowed, responses, text);
    var r := Execute(j, plan, t, allowed, responses, text).1.value;
    forall i | 0 <= i < |responses| ensures WroteChange(responses[i]) {
      assert Honest(plan.operations[i], responses[i]);
    }
    EveryChangeCounted(responses);
    forall i | 0 <= i < |responses|
      ensures encounters[i].seen.Some? && Honest(plan.operations[i], responses[i])
    {
      assert responses[i] == Respond(plan.operations[i], plan.authorizationId, t, encounters[i], digest, adapterText);
    }
  }

  lemma {:induction false} EveryChangeCounted(responses: seq<Response>)
    requires forall i :: 0 <= i < |responses| ==> WroteChange(responses[i])
    ensures CountIf(responses, WroteChange) == |responses|
  {
    if responses != [] {
      EveryChangeCounted(responses[..|responses| - 1]);
    }
  }

  // --- Destinations that share a target ---------------------------------------------------

  predicate NonBlankIds(d: Destination) {
    && !Blank(d.projectId)
    && (d.sectionId.Some? ==> !Blank(d.sectionId.value))
    && (d.parentId.Some? ==> !Blank(d.parentId.value))
  }

  function OrNull(id: Option<string>): Value {
    if id.None? then Null else Text(id.value)
  }

  function DataFor(content: string, d: Destination): PayloadData {
    map["content" := Text(content), "project_id" := Text(d.projectId),
        "section_id" := OrNull(d.sectionId), "parent_id" := OrNull(d.parentId)]
  }

  function FieldsFor(content: string, d: Destination): CreateFields {
    CreateFields(content, d.projectId, d.sectionId, d.parentId, "")
  }

  lemma {:induction false} DataValidates(content: string, d: Destination)
    requires !Blank(content) && NonBlankIds(d)
    ensures ValidateCreatePayload(DataFor(content, d)) == Ok(FieldsFor(content, d))
  {
  }

  /** An operation for the target, bound to a payload by its digest. */
  predicate CreateFor(operation: PlannedOperation, target: string, payloadDigest: string) {
    && operation.provider == "todoist" && operation.action == "create"
    && operation.target == target && operation.payloadDigest == payloadDigest
  }

  /**
    `write` accepts a payload for any destination whose target is the operation's, so operations
    with one target can create in different places.
   */
  lemma {:induction false} SharedTargetAccepted(
      operation: PlannedOperation, authorizationId: string, t: string, content: string, payloadDigest: string,
      d: Destination, shared: Destination)
    requires !Blank(authorizationId) && !Blank(t) && !Blank(content) && NonBlankIds(d)
    requires Target(d) == Target(shared) && CreateFor(operation, Target(shared), payloadDigest)
    ensures CheckWrite(operation, authorizationId, t,
                       ResolvedPayload(operation.operationId, payloadDigest, DataFor(content, d)))
         == Ok(FieldsFor(content, d))
  {
    DataValidates(content, d);
  }

  /** Two destinations with non-blank ids and one target, in the project and in a section of another. */
  lemma {:induction false} AcceptedCollision(projectId: string, sectionId: string)
    requires !Blank(projectId) && !Blank(sectionId)
    ensures
      var a := Destination(projectId + SECTION + sectionId, None, None);
      var b := Destination(projectId, Some(sectionId), None);
      a != b && NonBlankIds(a) && NonBlankIds(b) && Target(a) == Target(b)
  {
    var whole := projectId + SECTION + sectionId;
    TargetCollision(projectId, sectionId, None);
    var i :| 0 <= i < |projectId| && !IsSpace(projectId[i]);
    assert whole[i] == projectId[i];
  }
}
