/**
 * The request validator at the top of the `predict` endpoint.
 *
 * A request carries an optional `observation_id` and an optional `data`
 * mapping from column names to numbers. The validator runs a fixed chain of
 * checks and the first one that fails decides the rejection; a request that
 * passes every check is accepted and goes on to the model and the store.
 */
module Validation {
  import opened Wrappers

  /** The `data` mapping of a request: column name to numeric value. */
  type Observation = map<string, real>

  /** A `predict` request: each of its two keys may be absent. */
  datatype Request = Request(observationId: Option<int>, data: Option<Observation>)

  /** Why a request was rejected; the column sets and values reported by the error messages. */
  datatype ErrorKind =
    | MissingId
    | MissingData
    | MissingColumns(missing: set<string>)
    | UnrecognizedColumns(extra: set<string>)
    | InvalidSex(sex: real)
    | InvalidCa(ca: real)
    | InvalidAge(age: real)
    | InvalidTrestbps(trestbps: real)
    | InvalidOldpeak(oldpeak: real)

  /** The validator's answer. A rejection echoes the request's id (None when it had none). */
  datatype Verdict =
    | Accept(acceptedId: int, observation: Observation)
    | Reject(echoedId: Option<int>, kind: ErrorKind)

  /** The nine columns the model expects, no more and no fewer. */
  const Necessary: set<string> :=
    {"age", "ca", "cp", "fbs", "oldpeak", "restecg", "sex", "thal", "trestbps"}

  predicate ValidSex(x: real) { x == 0.0 || x == 1.0 }
  predicate ValidCa(x: real) { x == 0.0 || x == 1.0 || x == 2.0 || x == 3.0 }
  predicate ValidAge(x: real) { 0.0 <= x < 150.0 }
  predicate ValidTrestbps(x: real) { 50.0 <= x < 300.0 }
  /** `oldpeak` has an upper bound only. */
  predicate ValidOldpeak(x: real) { x < 10.0 }

  /**
   * What an accepted request looks like, stated as one conjunction rather than
   * as a chain: both keys present, exactly the nine columns, every range met.
   */
  ghost predicate Acceptable(req: Request)
  {
    && req.observationId.Some?
    && req.data.Some?
    && req.data.value.Keys == Necessary
    && ValidSex(req.data.value["sex"])
    && ValidCa(req.data.value["ca"])
    && ValidAge(req.data.value["age"])
    && ValidTrestbps(req.data.value["trestbps"])
    && ValidOldpeak(req.data.value["oldpeak"])
  }

  /** The validation chain of `predict`, one early return per check, in the source's order. */
  function Validate(req: Request): (v: Verdict)
    ensures req.observationId.None? <==> v == Reject(None, MissingId)
    ensures v.Reject? ==> v.echoedId == req.observationId
    ensures v.Accept? <==> Acceptable(req)
    ensures v.Accept? ==> Some(v.acceptedId) == req.observationId && Some(v.observation) == req.data
    ensures v.Reject? && v.kind.MissingColumns? ==>
              req.data.Some? && v.kind.missing == Necessary - req.data.value.Keys && v.kind.missing != {}
    ensures v.Reject? && v.kind.UnrecognizedColumns? ==>
              req.data.Some? && Necessary <= req.data.value.Keys &&
              v.kind.extra == req.data.value.Keys - Necessary && v.kind.extra != {}
  {
    if req.observationId.None? then Reject(None, MissingId)
    else if req.data.None? then Reject(req.observationId, MissingData)
    else
      var d := req.data.value;
      var actual := d.Keys;
      if !(Necessary <= actual) then
        NotSubsetLeavesDifference(Necessary, actual);
        Reject(req.observationId, MissingColumns(Necessary - actual))
      else if !(actual <= Necessary) then
        NotSubsetLeavesDifference(actual, Necessary);
        Reject(req.observationId, UnrecognizedColumns(actual - Necessary))
      else if !ValidSex(d["sex"]) then Reject(req.observationId, InvalidSex(d["sex"]))
      else if !ValidCa(d["ca"]) then Reject(req.observationId, InvalidCa(d["ca"]))
      else if !ValidAge(d["age"]) then Reject(req.observationId, InvalidAge(d["age"]))
      else if !ValidTrestbps(d["trestbps"]) then Reject(req.observationId, InvalidTrestbps(d["trestbps"]))
      else if !ValidOldpeak(d["oldpeak"]) then Reject(req.observationId, InvalidOldpeak(d["oldpeak"]))
      else Accept(req.observationId.value, d)
  }

  /** A failed subset test always has something to report. */
  lemma NotSubsetLeavesDifference(a: set<string>, b: set<string>)
    requires !(a <= b)
    ensures a - b != {}
  {
    var x :| x in a && x !in b;
    assert x in a - b;
  }

  // ---------------------------------------------------------------------------
  // The checks as an ordered list, an independent description of the chain.
  // ---------------------------------------------------------------------------

  datatype Check =
    | HasId | HasData | NoMissingColumns | NoExtraColumns
    | SexCheck | CaCheck | AgeCheck | TrestbpsCheck | OldpeakCheck

  /** The order in which `predict` runs its checks. */
  const Order: seq<Check> :=
    [HasId, HasData, NoMissingColumns, NoExtraColumns,
     SexCheck, CaCheck, AgeCheck, TrestbpsCheck, OldpeakCheck]

  /** Whether one check, taken on its own, finds fault with the request. */
  predicate Fails(c: Check, req: Request)
  {
    match c
    case HasId => req.observationId.None?
    case HasData => req.data.None?
    case NoMissingColumns => req.data.Some? && !(Necessary <= req.data.value.Keys)
    case NoExtraColumns => req.data.Some? && !(req.data.value.Keys <= Necessary)
    case SexCheck => FieldFails(req, "sex", ValidSex)
    case CaCheck => FieldFails(req, "ca", ValidCa)
    case AgeCheck => FieldFails(req, "age", ValidAge)
    case TrestbpsCheck => FieldFails(req, "trestbps", ValidTrestbps)
    case OldpeakCheck => FieldFails(req, "oldpeak", ValidOldpeak)
  }

  predicate FieldFails(req: Request, name: string, valid: real -> bool)
  {
    req.data.Some? && name in req.data.value && !valid(req.data.value[name])
  }

  /** The error a failing check reports. */
  function ErrorOf(c: Check, req: Request): (e: ErrorKind)
    requires Fails(c, req)
    ensures CheckOf(e) == c
  {
    match c
    case HasId => MissingId
    case HasData => MissingData
    case NoMissingColumns => MissingColumns(Necessary - req.data.value.Keys)
    case NoExtraColumns => UnrecognizedColumns(req.data.value.Keys - Necessary)
    case SexCheck => InvalidSex(req.data.value["sex"])
    case CaCheck => InvalidCa(req.data.value["ca"])
    case AgeCheck => InvalidAge(req.data.value["age"])
    case TrestbpsCheck => InvalidTrestbps(req.data.value["trestbps"])
    case OldpeakCheck => InvalidOldpeak(req.data.value["oldpeak"])
  }

  /** The check that reports a given kind of error. */
  function CheckOf(e: ErrorKind): Check
  {
    match e
    case MissingId => HasId
    case MissingData => HasData
    case MissingColumns(_) => NoMissingColumns
    case UnrecognizedColumns(_) => NoExtraColumns
    case InvalidSex(_) => SexCheck
    case InvalidCa(_) => CaCheck
    case InvalidAge(_) => AgeCheck
    case InvalidTrestbps(_) => TrestbpsCheck
    case InvalidOldpeak(_) => OldpeakCheck
  }

  /** The position of the first check in `checks` that fails, if any. */
  function FirstFailing(checks: seq<Check>, req: Request): (r: Option<nat>)
    ensures r.Some? ==> r.value < |checks| && Fails(checks[r.value], req)
    ensures r.Some? ==> forall j :: 0 <= j < r.value ==> !Fails(checks[j], req)
    ensures r.None? <==> forall j :: 0 <= j < |checks| ==> !Fails(checks[j], req)
    decreases |checks|
  {
    if checks == [] then None
    else if Fails(checks[0], req) then Some(0)
    else match FirstFailing(checks[1..], req)
      case None => None
      case Some(k) => Some(k + 1)
  }

  /**
   * The chain agrees with the list: the request is rejected with the error of
   * the first failing check in `Order`, and accepted when none fails.
   */
  lemma ValidateIsFirstFailure(req: Request)
    ensures FirstFailing(Order, req).None? ==> Validate(req).Accept?
    ensures FirstFailing(Order, req).Some? ==>
              Validate(req) == Reject(req.observationId, ErrorOf(Order[FirstFailing(Order, req).value], req))
  {
    var r := FirstFailing(Order, req);
    if r.None? {
      PassesAt(req, 8);
    } else {
      var i := r.value;
      PassesAt(req, i);
      assert Fails(Order[i], req);
    }
  }

  /** Unfolds "every check before position `i` passes" into the nine concrete checks. */
  lemma PassesAt(req: Request, i: nat)
    requires i < |Order|
    requires forall j :: 0 <= j < i ==> !Fails(Order[j], req)
    ensures i > 0 ==> req.observationId.Some?
    ensures i > 1 ==> req.data.Some?
    ensures i > 2 ==> Necessary <= req.data.value.Keys
    ensures i > 3 ==> req.data.value.Keys == Necessary
    ensures i > 4 ==> ValidSex(req.data.value["sex"])
    ensures i > 5 ==> ValidCa(req.data.value["ca"])
    ensures i > 6 ==> ValidAge(req.data.value["age"])
    ensures i > 7 ==> ValidTrestbps(req.data.value["trestbps"])
    ensures i == 8 && !Fails(Order[8], req) ==> Acceptable(req)
  {
    if i > 0 { assert !Fails(Order[0], req); }
    if i > 1 { assert !Fails(Order[1], req); }
    if i > 2 { assert !Fails(Order[2], req); }
    if i > 3 { assert !Fails(Order[3], req); }
    if i > 4 { assert !Fails(Order[4], req); }
    if i > 5 { assert !Fails(Order[5], req); }
    if i > 6 { assert !Fails(Order[6], req); }
    if i > 7 { assert !Fails(Order[7], req); }
  }

  /**
   * The first failure decides: a request is rejected by check `Order[i]` exactly
   * when that check fails and every check before it passes.
   */
  lemma RejectedByFirstFailingCheck(req: Request, i: nat)
    requires i < |Order|
    ensures (Validate(req).Reject? && CheckOf(Validate(req).kind) == Order[i]) <==>
            (Fails(Order[i], req) && forall j :: 0 <= j < i ==> !Fails(Order[j], req))
  {
    ValidateIsFirstFailure(req);
    var r := FirstFailing(Order, req);
    if r.Some? {
      var k := r.value;
      assert CheckOf(Validate(req).kind) == Order[k];
      RankInOrder(i);
      RankInOrder(k);
      if i > k {
        assert Fails(Order[k], req);
      }
    }
  }

  /** Each check's position in `Order`. */
  function Rank(c: Check): nat
  {
    match c
    case HasId => 0
    case HasData => 1
    case NoMissingColumns => 2
    case NoExtraColumns => 3
    case SexCheck => 4
    case CaCheck => 5
    case AgeCheck => 6
    case TrestbpsCheck => 7
    case OldpeakCheck => 8
  }

  /** `Order` lists every check once: position and rank agree. */
  lemma RankInOrder(i: nat)
    requires i < |Order|
    ensures Rank(Order[i]) == i
  {
  }

  /** Accepted exactly when no check in `Order` fails. */
  lemma AcceptedIffNoCheckFails(req: Request)
    ensures Validate(req).Accept? <==> forall c :: c in Order ==> !Fails(c, req)
  {
    ValidateIsFirstFailure(req);
    assert forall c :: c in Order ==> exists j :: 0 <= j < |Order| && Order[j] == c;
  }
}
