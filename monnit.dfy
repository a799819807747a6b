/**
 * The sensor-reading store: the shapes of the sensor API's response, the choice of the
 * reading that is shown, the seven-day query window, and when a fetch replaces the stored
 * response. Sending the request and decoding its body happen outside the model; their
 * outcome is a parameter.
 */
module Monnit {
  import opened Common
  import opened GoTime
  import opened TimeParse

  /** How far back a fetch asks for readings. */
  const DaysQueried := 7

  /**
   * A temperature reading, carried as the text Temperature.String() gives it: the value
   * with one decimal and "°C". The zero temperature shows as "0.0°C".
   */
  datatype Temperature = Temperature(text: string)

  const ZeroTemperature := Temperature("0.0°C")

  /** One reading of the sensor, field by field as the API sends it. */
  datatype SensorDataMessage = SensorDataMessage(
    dataMessageGuid: string,
    sensorId: int64,
    messageDate: Time,
    state: int64,
    signalStrength: int64,
    voltage: real,
    battery: int64,
    data: string,
    displayData: string,
    temperature: Temperature,
    metNotificationRequirements: bool,
    gatewayId: int64,
    dataValues: string,
    dataTypes: string,
    plotValues: string,
    plotLabels: string)

  /** The zero-valued reading: every field empty or zero, dated at the zero instant. */
  const ZeroMessage := SensorDataMessage("", 0, ZeroTime, 0, 0, 0.0, 0, "", "", ZeroTemperature,
                                         false, 0, "", "", "", "")

  /** A whole response: the API method, its readings (newest first), and when it was fetched. */
  datatype SensorDataMessages = SensorDataMessages(apiMethod: string, messages: seq<SensorDataMessage>, lastUpdated: Time)

  /** The API lists readings from the newest to the oldest. */
  predicate NewestFirst(messages: seq<SensorDataMessage>) {
    forall i, j :: 0 <= i < j < |messages| ==> !Before(messages[i].messageDate, messages[j].messageDate)
  }

  /** SensorDataMessages.GetLast: the first reading, or the zero reading when there is none. */
  function GetLast(sdm: SensorDataMessages): (r: SensorDataMessage)
    ensures |sdm.messages| == 0 ==> r == ZeroMessage
    ensures |sdm.messages| > 0 ==> r == sdm.messages[0]
  {
    if |sdm.messages| == 0 then ZeroMessage else sdm.messages[0]
  }

  /** On a newest-first list, GetLast gives a reading of the list that no other reading is newer than. */
  lemma GetLastIsNewest(sdm: SensorDataMessages)
    requires NewestFirst(sdm.messages) && |sdm.messages| > 0
    ensures GetLast(sdm) in sdm.messages
    ensures forall m :: m in sdm.messages ==> !Before(GetLast(sdm).messageDate, m.messageDate)
  {
    forall m | m in sdm.messages
      ensures !Before(GetLast(sdm).messageDate, m.messageDate)
    {
      var j :| 0 <= j < |sdm.messages| && sdm.messages[j] == m;
      if j > 0 {
        assert !Before(sdm.messages[0].messageDate, sdm.messages[j].messageDate);
      }
    }
  }

  // ---------------------------------------------------------------------------------------
  // The request

  /** The HTTP request as LoadData prepares it: verb, URL, the two key headers, and the query. */
  datatype Request = Request(verb: string, url: string, header: seq<(string, string)>, query: seq<(string, string)>)

  /** The first day of the query window: seven days before its end, in UTC. */
  function WindowStart(toDate: Time): (fromDate: Time)
    ensures fromDate.sec == toDate.sec - DaysQueried * SecondsPerDay && fromDate.nsec == toDate.nsec
  {
    AddDays(toDate, -DaysQueried)
  }

  /** What the body of a response decoded to: each of the three fields only when present. */
  datatype Body = Body(apiMethod: Option<string>, result: Option<seq<SensorDataMessage>>, lastUpdated: Option<Time>)

  /** What sending the request and decoding the response body gave. */
  datatype Exchange =
    | TransportFailed(err: Error)
    | DecodeFailed(err: Error)
    | Decoded(body: Body)

  /** Decoding a body into a value: the fields the body holds replace those of `sdm`. */
  function DecodeInto(sdm: SensorDataMessages, body: Body): (r: SensorDataMessages)
    ensures r.apiMethod == (if body.apiMethod.Some? then body.apiMethod.value else sdm.apiMethod)
    ensures r.messages == (if body.result.Some? then body.result.value else sdm.messages)
    ensures r.lastUpdated == (if body.lastUpdated.Some? then body.lastUpdated.value else sdm.lastUpdated)
  {
    SensorDataMessages(
      if body.apiMethod.Some? then body.apiMethod.value else sdm.apiMethod,
      if body.result.Some? then body.result.value else sdm.messages,
      if body.lastUpdated.Some? then body.lastUpdated.value else sdm.lastUpdated)
  }

  /** A body that carries no LastUpdated field keeps the fetch time, and its readings. */
  lemma DecodeKeepsFetchTime(startedAt: Time, body: Body)
    requires body.lastUpdated.None? && body.result.Some?
    ensures DecodeInto(SensorDataMessages("", [], startedAt), body).lastUpdated == startedAt
    ensures GetLast(DecodeInto(SensorDataMessages("", [], startedAt), body))
         == (if |body.result.value| == 0 then ZeroMessage else body.result.value[0])
  {
  }

  /** A body without a "Result" field leaves no readings, so the zero reading is shown. */
  lemma NoResultShowsZero(startedAt: Time, body: Body)
    requires body.result.None?
    ensures GetLast(DecodeInto(SensorDataMessages("", [], startedAt), body)) == ZeroMessage
  {
  }

  // ---------------------------------------------------------------------------------------
  // The store

  class Monnit {
    const sensorId: string
    const apiKeyId: string
    const apiSecretKey: string
    const apiUrl: string
    /** The last response fully fetched and decoded, if any. */
    var lastData: Option<SensorDataMessages>

    /** The store as NewMonnit first builds it: the credentials and no data yet. */
    constructor (sensorId: string, apiKeyId: string, apiSecretKey: string, apiUrl: string)
      ensures this.sensorId == sensorId && this.apiKeyId == apiKeyId
      ensures this.apiSecretKey == apiSecretKey && this.apiUrl == apiUrl
      ensures lastData.None?
    {
      this.sensorId := sensorId;
      this.apiKeyId := apiKeyId;
      this.apiSecretKey := apiSecretKey;
      this.apiUrl := apiUrl;
      lastData := None;
    }

    /** Monnit.LastReading: the zero reading without data, otherwise GetLast of the data. */
    function LastReading(): (r: SensorDataMessage)
      reads this
      ensures lastData.None? ==> r == ZeroMessage
      ensures lastData.Some? ==> r == GetLast(lastData.value)
    {
      if lastData.None? then ZeroMessage else GetLast(lastData.value)
    }

    /** The request LoadData sends for the window ending at `toDate`. */
    function RequestFor(toDate: Time): (r: Request)
      ensures r.verb == "GET" && r.url == apiUrl
      ensures r.header == [("APIKeyID", apiKeyId), ("APISecretKey", apiSecretKey)]
      ensures |r.query| == 3 && r.query[0] == ("sensorID", sensorId)
      ensures r.query[1] == ("fromDate", FormatDayLayout(WindowStart(toDate)))
      ensures r.query[2] == ("toDate", FormatDayLayout(toDate))
    {
      Request("GET", apiUrl, [("APIKeyID", apiKeyId), ("APISecretKey", apiSecretKey)],
              [("sensorID", sensorId), ("fromDate", FormatDayLayout(WindowStart(toDate))),
               ("toDate", FormatDayLayout(toDate))])
    }

    /**
     * The request LoadData builds, header by header and query parameter by query parameter:
     * the GET of the API URL with both credentials and the seven-day window ending at `toDate`.
     */
    method BuildRequest(toDate: Time) returns (req: Request)
      ensures req == RequestFor(toDate)
    {
      var fromDate := WindowStart(toDate);
      req := Request("GET", apiUrl, [], []);
      req := req.(header := req.header + [("APIKeyID", apiKeyId)]);
      req := req.(header := req.header + [("APISecretKey", apiSecretKey)]);
      var fromText, toText := FormatDayLayout(fromDate), FormatDayLayout(toDate);
      var q := req.query;
      q := q + [("sensorID", sensorId)];
      q := q + [("fromDate", fromText)];
      q := q + [("toDate", toText)];
      req := req.(query := q);
      ThreeAppends(("APIKeyID", apiKeyId), ("APISecretKey", apiSecretKey), ("", ""));
      ThreeAppends(("sensorID", sensorId), ("fromDate", fromText), ("toDate", toText));
      assert req.header == RequestFor(toDate).header;
      assert req.query == RequestFor(toDate).query;
    }

    /**
     * Monnit.LoadData. `startedAt` and `toDate` are the two readings of the clock, and
     * `newRequestError` is what building the request from the URL gave. The stored data is
     * replaced only when the request is built, sent and its body decoded; every error
     * is returned and leaves the stored data as it was.
     */
    method LoadData(startedAt: Time, toDate: Time, newRequestError: Option<Error>, send: Request -> Exchange)
      returns (err: Option<Error>)
      modifies this
      ensures newRequestError.Some? ==> err == newRequestError && lastData == old(lastData)
      ensures newRequestError.None? && !send(RequestFor(toDate)).Decoded? ==>
                err == Some(send(RequestFor(toDate)).err) && lastData == old(lastData)
      ensures newRequestError.None? && send(RequestFor(toDate)).Decoded? ==>
                err.None? && lastData == Some(DecodeInto(SensorDataMessages("", [], startedAt), send(RequestFor(toDate)).body))
    {
      var sdm := SensorDataMessages("", [], startedAt);
      if newRequestError.Some? {
        return newRequestError;
      }
      var req := BuildRequest(toDate);
      var exchange := send(req);
      match exchange {
        case TransportFailed(e) =>
          return Some(e);
        case DecodeFailed(e) =>
          return Some(e);
        case Decoded(body) =>
          sdm := DecodeInto(sdm, body);
          lastData := Some(sdm);
      }
      return None;
    }
  }

  /** Appending elements one at a time to an empty list lists them in order. */
  lemma ThreeAppends<T>(a: T, b: T, c: T)
    ensures [] + [a] + [b] == [a, b]
    ensures [] + [a] + [b] + [c] == [a, b, c]
  {
  }

  /**
   * The window sent with a request spans exactly seven days: both dates, read back in the
   * layout they are sent in, are the window's end and that instant less 7 * 86400 seconds,
   * whenever both ends of the window have four-digit years.
   */
  lemma QueryWindowSevenDays(m: Monnit, toDate: Time)
    requires FirstFourDigitSecond + DaysQueried * SecondsPerDay <= toDate.sec <= LastFourDigitSecond
    ensures ParseDayLayout(m.RequestFor(toDate).query[2].1) == Some(toDate.sec)
    ensures ParseDayLayout(m.RequestFor(toDate).query[1].1) == Some(toDate.sec - 7 * 86400)
  {
    var fromDate := WindowStart(toDate);
    assert FourDigitYear(toDate) && FourDigitYear(fromDate);
    DayLayoutRoundTrip(toDate);
    DayLayoutRoundTrip(fromDate);
    assert m.RequestFor(toDate).query[1].1 == FormatDayLayout(fromDate);
  }

  /** A store with no data, or with a response holding no readings, shows the zero reading. */
  lemma {:induction false} NoReadingIsZero(m: Monnit)
    requires m.lastData.None? || |m.lastData.value.messages| == 0
    ensures m.LastReading() == ZeroMessage
    ensures m.LastReading().messageDate == ZeroTime && m.LastReading().temperature.text == "0.0°C"
  {
  }

  /** With a newest-first response, the shown reading is one no other reading is newer than. */
  lemma LastReadingIsNewest(m: Monnit)
    requires m.lastData.Some? && |m.lastData.value.messages| > 0 && NewestFirst(m.lastData.value.messages)
    ensures m.LastReading() in m.lastData.value.messages
    ensures forall r :: r in m.lastData.value.messages ==> !Before(m.LastReading().messageDate, r.messageDate)
  {
    GetLastIsNewest(m.lastData.value);
  }
}
