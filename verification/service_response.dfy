/** `decodeServiceResponse` on the desktop: the phone's JSON text decoded into
    `ServiceResponse { quality: Int, type: String }`, then the two raw values
    turned into the desktop enumerations. In the source every failure here is
    a trap (`try!` for the JSON, `!` for each raw value); the model returns it. */
module ServiceResponse {
  import opened Wrappers
  import Json
  import opened DesktopSignal

  datatype DecodeFailure = MalformedJson | QualityOutOfRange(quality: int) | UnknownType(rawType: string)

  datatype Response = Response(quality: SignalQuality, signalType: SignalType)

  /** The JSON decoding step alone: an object with an integer `quality` member
      and a string `type` member; other members are ignored. */
  function DecodeFields(data: string): (r: Option<(int, string)>)
    ensures r.Some? <==>
              Json.ParseObject(data).Some?
              && Json.Lookup(Json.ParseObject(data).value, "quality").Some?
              && Json.Lookup(Json.ParseObject(data).value, "quality").value.Number?
              && Json.Lookup(Json.ParseObject(data).value, "type").Some?
              && Json.Lookup(Json.ParseObject(data).value, "type").value.Text?
    ensures r.Some? ==>
              Json.Lookup(Json.ParseObject(data).value, "quality") == Some(Json.Number(r.value.0))
              && Json.Lookup(Json.ParseObject(data).value, "type") == Some(Json.Text(r.value.1))
  {
    match Json.ParseObject(data)
    case None => None
    case Some(members) =>
      match (Json.Lookup(members, "quality"), Json.Lookup(members, "type"))
      case (Some(Number(q)), Some(Text(t))) => Some((q, t))
      case _ => None
  }

  /** `decodeServiceResponse`: JSON first, then `quality`, then `type`. */
  function Decode(data: string): (r: Result<Response, DecodeFailure>)
    ensures r == Failure(MalformedJson) <==> DecodeFields(data).None?
    ensures r.Success? <==>
              DecodeFields(data).Some?
              && QualityFromRawValue(DecodeFields(data).value.0).Some?
              && FromRawValue(DecodeFields(data).value.1).Some?
    ensures r.Success? ==>
              DecodeFields(data) == Some((QualityRawValue(r.value.quality), RawValue(r.value.signalType)))
    ensures r.Failure? && r.error.QualityOutOfRange? ==>
              DecodeFields(data) == Some((r.error.quality, DecodeFields(data).value.1))
              && (r.error.quality < 0 || r.error.quality > 4)
    ensures r.Failure? && r.error.UnknownType? ==>
              DecodeFields(data).Some? && DecodeFields(data).value.1 == r.error.rawType
              && r.error.rawType !in RawValues
  {
    match DecodeFields(data)
    case None => Failure(MalformedJson)
    case Some((q, t)) =>
      match QualityFromRawValue(q)
      case None => Failure(QualityOutOfRange(q))
      case Some(quality) =>
        match FromRawValue(t)
        case None => Failure(UnknownType(t))
        case Some(signalType) => Success(Response(quality, signalType))
  }
}
