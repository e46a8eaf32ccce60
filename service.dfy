/**
 * The `predict` endpoint: validation, then the model, then the store.
 *
 * The fitted model is not part of this model: its two answers for an
 * observation, the label and the probability of the positive class, are the
 * parameters `classify` and `score`, taken as given.
 */
module Service {
  import opened Wrappers
  import opened Validation
  import opened Store

  /** What `predict` answers. `InternalError` is an exception that escapes the handler. */
  datatype PredictResponse =
    | Rejected(echoedId: Option<int>, error: ErrorKind)
    | Predicted(observationId: int, prediction: bool, probability: real, storeError: Option<StoreError>)
    | InternalError

  /**
   * `predict` as intended: a rejected request leaves the store alone; an
   * accepted one is answered with the model's outputs and saved, and a repeated
   * id is reported next to the prediction while the store keeps its old row.
   */
  method Predict(store: PredictionStore, req: Request, classify: Observation -> bool, score: Observation -> real)
    returns (resp: PredictResponse)
    requires store.Valid()
    modifies store
    ensures store.Valid()
    ensures Validate(req).Reject? ==>
              && resp == Rejected(req.observationId, Validate(req).kind)
              && store.table == old(store.table) && store.order == old(store.order)
    ensures Validate(req).Accept? ==>
              var id, data := req.observationId.value, req.data.value;
              && resp.Predicted?
              && resp.observationId == id && resp.prediction == classify(data) && resp.probability == score(data)
              && (id in old(store.table) ==>
                    && resp.storeError == Some(AlreadyExists(id))
                    && store.table == old(store.table) && store.order == old(store.order))
              && (id !in old(store.table) ==>
                    && resp.storeError == None
                    && store.table == old(store.table)[id := Record(data, score(data), None)]
                    && store.order == old(store.order) + [id])
  {
    var verdict := Validate(req);
    if verdict.Reject? {
      return Rejected(verdict.echoedId, verdict.kind);
    }
    var id, data := verdict.acceptedId, verdict.observation;
    var prediction, probability := classify(data), score(data);
    var err := store.Insert(id, data, probability);
    resp := Predicted(id, prediction, probability, err);
  }

  /**
   * `predict` as written: the handler for the unique-constraint violation
   * formats a name that is not defined in it, so a repeated id ends in an
   * exception instead of a response; the failed insert has left the store as
   * it was.
   */
  method PredictAsWritten(store: PredictionStore, req: Request, classify: Observation -> bool, score: Observation -> real)
    returns (resp: PredictResponse)
    requires store.Valid()
    modifies store
    ensures store.Valid()
    ensures Validate(req).Reject? ==>
              && resp == Rejected(req.observationId, Validate(req).kind)
              && store.table == old(store.table) && store.order == old(store.order)
    ensures Validate(req).Accept? && req.observationId.value in old(store.table) ==>
              && resp == InternalError
              && store.table == old(store.table) && store.order == old(store.order)
    ensures Validate(req).Accept? && req.observationId.value !in old(store.table) ==>
              var id, data := req.observationId.value, req.data.value;
              && resp == Predicted(id, classify(data), score(data), None)
              && store.table == old(store.table)[id := Record(data, score(data), None)]
              && store.order == old(store.order) + [id]
  {
    var verdict := Validate(req);
    if verdict.Reject? {
      return Rejected(verdict.echoedId, verdict.kind);
    }
    var id, data := verdict.acceptedId, verdict.observation;
    var prediction, probability := classify(data), score(data);
    var err := store.Insert(id, data, probability);
    if err.Some? {
      return InternalError;
    }
    resp := Predicted(id, prediction, probability, None);
  }

  /** Submitting the same accepted request twice, as written: the second submission fails outright. */
  method DuplicateSubmissionAsWritten(req: Request, classify: Observation -> bool, score: Observation -> real)
    returns (first: PredictResponse, second: PredictResponse, rows: seq<Row>)
    requires Validate(req).Accept?
    ensures first == Predicted(req.observationId.value, classify(req.data.value), score(req.data.value), None)
    ensures second == InternalError
    ensures rows == [Row(req.observationId.value, req.data.value, score(req.data.value), None)]
  {
    var store := new PredictionStore();
    first := PredictAsWritten(store, req, classify, score);
    second := PredictAsWritten(store, req, classify, score);
    rows := store.ListAll();
  }

  /**
   * Submitting the same accepted request twice, as intended: both submissions
   * get the prediction, the second one also gets the duplicate-id error, and
   * the store holds one row for the id.
   */
  method DuplicateSubmission(req: Request, classify: Observation -> bool, score: Observation -> real)
    returns (first: PredictResponse, second: PredictResponse, rows: seq<Row>)
    requires Validate(req).Accept?
    ensures first == Predicted(req.observationId.value, classify(req.data.value), score(req.data.value), None)
    ensures second == first.(storeError := Some(AlreadyExists(req.observationId.value)))
    ensures rows == [Row(req.observationId.value, req.data.value, score(req.data.value), None)]
  {
    var store := new PredictionStore();
    first := Predict(store, req, classify, score);
    second := Predict(store, req, classify, score);
    rows := store.ListAll();
  }

  /** The observation of the end-to-end example: a valid request for id 1. */
  function ExampleData(): (d: Observation)
    ensures Validate(Request(Some(1), Some(d))).Accept?
  {
    map["age" := 63.0, "sex" := 1.0, "cp" := 3.0, "trestbps" := 145.0, "fbs" := 1.0,
        "restecg" := 0.0, "oldpeak" := 2.3, "ca" := 0.0, "thal" := 1.0]
  }

  /**
   * Predict for id 1, list the store, set the true class, list again: the first
   * listing shows the row with no true class, the second with the one set.
   */
  method PredictUpdateList(classify: Observation -> bool, score: Observation -> real, outcome: int)
    returns (resp: PredictResponse, before: seq<Row>, updated: Result<Row, StoreError>, after: seq<Row>)
    ensures resp == Predicted(1, classify(ExampleData()), score(ExampleData()), None)
    ensures before == [Row(1, ExampleData(), score(ExampleData()), None)]
    ensures updated == Success(Row(1, ExampleData(), score(ExampleData()), Some(outcome)))
    ensures after == [Row(1, ExampleData(), score(ExampleData()), Some(outcome))]
  {
    var store := new PredictionStore();
    resp := Predict(store, Request(Some(1), Some(ExampleData())), classify, score);
    before := store.ListAll();
    updated := store.Update(1, Some(outcome));
    after := store.ListAll();
  }

  /** Setting the true class of an id that was never predicted changes nothing. */
  method UpdateUnknownId(classify: Observation -> bool, score: Observation -> real, outcome: int)
    returns (updated: Result<Row, StoreError>, rows: seq<Row>)
    ensures updated == Failure(DoesNotExist(2))
    ensures rows == [Row(1, ExampleData(), score(ExampleData()), None)]
  {
    var store := new PredictionStore();
    var _ := Predict(store, Request(Some(1), Some(ExampleData())), classify, score);
    updated := store.Update(2, Some(outcome));
    rows := store.ListAll();
  }
}
