/**
 * The two handlers as functions from the loaded state and the request to a response:
 * `/options` answers the catalog or 500, `/predict` answers a price or 400.
 */
module Api {
  import opened Wrappers
  import opened DropdownCatalog
  import opened Validation

  const StatusOk := 200
  const StatusBadRequest := 400
  const StatusServerError := 500

  /**
   * The listing data frame as the `/options` handler reads it: its rows, or the message
   * of the exception raised while reading its columns.
   */
  type Frame = Result<seq<Record>, string>

  /**
   * One-hot encoding, scaling and the regression model applied to a typed request:
   * a price, or the message of the exception they raise.
   */
  type Inference = PredictionRequest -> Result<real, string>

  datatype Fault =
    | InvalidRequest(error: ValidationError)
    | InferenceFailed(message: string)
    | DatasetUnreadable(message: string)

  datatype Body =
    | OptionsBody(catalog: Catalog)
    | PriceBody(estimatedPrice: real)
    | ErrorBody(fault: Fault)

  datatype Response = Response(status: int, body: Body)

  /** The text of the `error` field of a failure response: the message of the exception met. */
  function FaultMessage(f: Fault): (text: string)
    ensures f.InvalidRequest? ==> text == ErrorMessage(f.error)
    ensures f.InferenceFailed? || f.DatasetUnreadable? ==> text == f.message
  {
    match f
    case InvalidRequest(e) => ErrorMessage(e)
    case InferenceFailed(m) => m
    case DatasetUnreadable(m) => m
  }

  /** The `/options` handler. */
  function GetOptions(frame: Frame): (resp: Response)
    ensures resp.status == StatusOk || resp.status == StatusServerError
    ensures resp.status == StatusServerError <==> frame.Failure?
    ensures frame.Failure? ==> resp.body == ErrorBody(DatasetUnreadable(frame.error))
    ensures frame.Success? ==> resp.body.OptionsBody? && resp.body.catalog == BuildCatalog(frame.value)
  {
    match frame
    case Failure(message) => Response(StatusServerError, ErrorBody(DatasetUnreadable(message)))
    case Success(data) => Response(StatusOk, OptionsBody(BuildCatalog(data)))
  }

  /** The `/predict` handler: every failure, of validation or of inference, is answered with 400. */
  function PredictPrice(content: Option<Content>, infer: Inference): (resp: Response)
    ensures resp.status == StatusOk || resp.status == StatusBadRequest
    ensures resp.status == StatusBadRequest <==>
              Validate(content).Failure? || infer(Validate(content).value).Failure?
    ensures Validate(content).Failure? ==> resp.body == ErrorBody(InvalidRequest(Validate(content).error))
    ensures Validate(content).Success? && infer(Validate(content).value).Failure? ==>
              resp.body == ErrorBody(InferenceFailed(infer(Validate(content).value).error))
    ensures resp.status == StatusOk ==>
              resp.body.PriceBody? && infer(Validate(content).value) == Success(resp.body.estimatedPrice)
  {
    match Validate(content)
    case Failure(e) => Response(StatusBadRequest, ErrorBody(InvalidRequest(e)))
    case Success(req) =>
      match infer(req)
      case Failure(message) => Response(StatusBadRequest, ErrorBody(InferenceFailed(message)))
      case Success(price) => Response(StatusOk, PriceBody(price))
  }

  /** A request that fails validation is answered before any transform runs: the trained regression model cannot affect it. */
  lemma InvalidRequestSkipsInference(content: Option<Content>, infer: Inference, other: Inference)
    requires Validate(content).Failure?
    ensures PredictPrice(content, infer) == PredictPrice(content, other)
  {
  }

  /** A body that omits `kms_driven` is answered 400 with the missing-fields error and its fixed message. */
  lemma MissingKmsDriven(m: Content, infer: Inference)
    requires "kms_driven" !in m
    ensures PredictPrice(Some(m), infer) == Response(StatusBadRequest, ErrorBody(InvalidRequest(MissingFields)))
    ensures FaultMessage(PredictPrice(Some(m), infer).body.fault) == "Missing one or more required fields"
  {
  }
}
