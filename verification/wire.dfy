/** The signal reading crossing from phone to desktop: what the phone writes
    is what the desktop decodes. */
module Wire {
  import opened Wrappers
  import opened Decimal
  import Json
  import PhoneSignal
  import DesktopSignal
  import ServiceResponse
  import BoundedInts

  /** The phone's wire strings are exactly the desktop's raw values, so every
      type the phone can send is decodable. */
  lemma WireStringsAreRawValues()
    ensures (set t: PhoneSignal.SignalType :: PhoneSignal.WireString(t)) == DesktopSignal.RawValues
  {
    var phone := set t: PhoneSignal.SignalType :: PhoneSignal.WireString(t);
    assert PhoneSignal.WireString(PhoneSignal.SignalType.NoSignal) in phone;
    assert PhoneSignal.WireString(PhoneSignal.TwoG) in phone;
    assert PhoneSignal.WireString(PhoneSignal.Edge) in phone;
    assert PhoneSignal.WireString(PhoneSignal.ThreeG) in phone;
    assert PhoneSignal.WireString(PhoneSignal.Hsdpa) in phone;
    assert PhoneSignal.WireString(PhoneSignal.Lte) in phone;
    assert PhoneSignal.WireString(PhoneSignal.FiveG) in phone;
    assert PhoneSignal.WireString(PhoneSignal.FiveGPlus) in phone;
  }

  /** The text of a two-member message in the phone's layout. */
  function Message(quality: int, rawType: string): string {
    "{\"quality\":" + IntToString(quality) + ",\"type\":\"" + rawType + "\"}"
  }

  lemma MessageLayout(d: string, w: string, tail: string)
    ensures "{\"quality\":" + d + ",\"type\":\"" + w + "\"}" + tail
         == "{\"" + "quality" + "\":" + d + ",\"" + "type" + "\":\"" + w + "\"}" + tail
  {
  }

  /** How the desktop decodes any message in the phone's layout, followed by
      whitespace: malformed never, then the quality check, then the type check. */
  lemma DecodeMessage(quality: int, rawType: string, tail: string)
    requires -BoundedInts.INT64_MAX - 1 <= quality <= BoundedInts.INT64_MAX
    requires Json.PlainText(rawType) && Json.AllWhitespace(tail)
    ensures ServiceResponse.DecodeFields(Message(quality, rawType) + tail) == Some((quality, rawType))
    ensures ServiceResponse.Decode(Message(quality, rawType) + tail)
            == if !(0 <= quality <= 4) then Failure(ServiceResponse.QualityOutOfRange(quality))
               else if rawType !in DesktopSignal.RawValues then Failure(ServiceResponse.UnknownType(rawType))
               else Success(ServiceResponse.Response(DesktopSignal.QualityFromRawValue(quality).value,
                                                     DesktopSignal.FromRawValue(rawType).value))
  {
    var data := Message(quality, rawType) + tail;
    MessageLayout(IntToString(quality), rawType, tail);
    Json.TwoMemberObject("quality", quality, "type", rawType, tail);
    var members := [Json.Member("quality", Json.Number(quality)), Json.Member("type", Json.Text(rawType))];
    assert Json.ParseObject(data) == Some(members);
    assert Json.Lookup(members, "quality") == Some(Json.Number(quality));
    assert Json.Lookup(members, "type") == Some(Json.Text(rawType));
  }

  /** `toJSON` writes a JSON object of exactly two members, in this order:
      `quality`, the quality's number, and `type`, the type's wire string. */
  lemma ToJsonIsObject(r: PhoneSignal.Reading)
    ensures Json.ParseObject(PhoneSignal.ToJson(r))
            == Some([Json.Member("quality", Json.Number(PhoneSignal.Quality(r.quality))),
                     Json.Member("type", Json.Text(PhoneSignal.WireString(r.signalType)))])
  {
    var q := PhoneSignal.Quality(r.quality);
    var w := PhoneSignal.WireString(r.signalType);
    PhoneSignal.WireStringsDistinct(r.signalType, r.signalType);
    assert Json.AllWhitespace("");
    assert PhoneSignal.ToJson(r) == Message(q, w);
    MessageLayout(IntToString(q), w, "");
    assert Message(q, w) + "" == Message(q, w);
    Json.TwoMemberObject("quality", q, "type", w, "");
  }

  /** Decoding what the phone writes yields the reading it encoded: the same
      quality number and the same type string. */
  lemma WireRoundTrip(r: PhoneSignal.Reading)
    ensures ServiceResponse.Decode(PhoneSignal.WireMessage(r)).Success?
    ensures DesktopSignal.QualityRawValue(ServiceResponse.Decode(PhoneSignal.WireMessage(r)).value.quality)
            == PhoneSignal.Quality(r.quality)
    ensures DesktopSignal.RawValue(ServiceResponse.Decode(PhoneSignal.WireMessage(r)).value.signalType)
            == PhoneSignal.WireString(r.signalType)
  {
    var q := PhoneSignal.Quality(r.quality);
    var w := PhoneSignal.WireString(r.signalType);
    PhoneSignal.WireStringsDistinct(r.signalType, r.signalType);
    WireStringsAreRawValues();
    assert w in DesktopSignal.RawValues;
    assert PhoneSignal.ToJson(r) == Message(q, w);
    DecodeMessage(q, w, "\n");
  }

  /** A quality outside 0..4 is refused, whatever the type. */
  lemma QualityOutOfRangeRejected()
    ensures ServiceResponse.Decode(Message(5, "LTE")) == Failure(ServiceResponse.QualityOutOfRange(5))
    ensures ServiceResponse.Decode(Message(-1, "LTE")) == Failure(ServiceResponse.QualityOutOfRange(-1))
  {
    assert Message(5, "LTE") + "" == Message(5, "LTE");
    DecodeMessage(5, "LTE", "");
    assert Message(-1, "LTE") + "" == Message(-1, "LTE");
    DecodeMessage(-1, "LTE", "");
  }

  /** Type strings are compared with their letter case. */
  lemma LowerCaseTypeRejected(quality: int)
    requires 0 <= quality <= 4
    ensures ServiceResponse.Decode(Message(quality, "3g")) == Failure(ServiceResponse.UnknownType("3g"))
  {
    DesktopSignal.LowerCaseIsRejected();
    assert "3g" !in DesktopSignal.RawValues;
    assert Message(quality, "3g") + "" == Message(quality, "3g");
    DecodeMessage(quality, "3g", "");
  }

  /** A message without a `type` member is malformed. */
  lemma MissingTypeRejected(quality: int)
    requires -BoundedInts.INT64_MAX - 1 <= quality <= BoundedInts.INT64_MAX
    ensures ServiceResponse.Decode("{\"quality\":" + IntToString(quality) + "}")
            == Failure(ServiceResponse.MalformedJson)
  {
    var members := [Json.Member("quality", Json.Number(quality))];
    QualityOnly(quality);
    assert Json.Lookup(members, "type") == None;
    MissingMemberIsMalformed("{\"quality\":" + IntToString(quality) + "}", members);
  }

  lemma QualityOnly(quality: int)
    requires -BoundedInts.INT64_MAX - 1 <= quality <= BoundedInts.INT64_MAX
    ensures Json.ParseObject("{\"quality\":" + IntToString(quality) + "}")
            == Some([Json.Member("quality", Json.Number(quality))])
  {
    OneMemberLayout(IntToString(quality));
    Json.OneMemberObject("quality", quality, "");
  }

  lemma OneMemberLayout(d: string)
    ensures "{\"quality\":" + d + "}" == "{\"" + "quality" + "\":" + d + "}" + ""
  {
  }

  /** An object whose members lack `type` is malformed, whatever else it holds. */
  lemma MissingMemberIsMalformed(data: string, members: seq<Json.Member>)
    requires Json.ParseObject(data) == Some(members)
    requires Json.Lookup(members, "type") == None
    ensures ServiceResponse.Decode(data) == Failure(ServiceResponse.MalformedJson)
  {
  }

  /** Text that does not start (after whitespace) with an object is malformed. */
  lemma NonObjectRejected(data: string)
    requires |data| > 0 && !Json.IsWhitespace(data[0]) && data[0] != '{'
    ensures ServiceResponse.Decode(data) == Failure(ServiceResponse.MalformedJson)
  {
    Json.SkipNonWhitespace(data);
  }
}
