/** `StopEta`: one predicted arrival at a stop, and its display line. */
module StopEtas {
  import opened Wrappers
  import opened Decimal
  import opened EtaTime

  /** The fifteen fields of a `StopEta`. `etaTimeLeft` is `None` while the Java field is `null`.
      The JSON key `seq` is held in `stopSeq`, since `seq` is a Dafny keyword. */
  datatype EtaFields = EtaFields(
    co: string,
    route: string,
    dir: string,
    serviceType: string,
    stopSeq: string,
    destTc: string,
    destSc: string,
    destEn: string,
    etaSeq: string,
    eta: string,
    rmkTc: string,
    rmkSc: string,
    rmkEn: string,
    dataTimestamp: string,
    etaTimeLeft: Option<string>)

  /** The platform answers `toString` depends on: `SimpleDateFormat("yyyy-MM-dd'T'HH:mm:ssZ").parse`
      as a partial map from text to epoch milliseconds (`None` is a ParseException),
      `DateUtil.returnTimeString`, and the clock. */
  datatype Platform = Platform(parseEta: string -> Option<int>, timeString: string -> string, clock: Clock)

  /** The text `getEtaTimeLeft` returns for an arrival at `etaMillis`: `String.valueOf` of the
      minute count. */
  function MinutesLeftText(etaMillis: int, clock: Clock): (s: string)
    ensures 1 <= |s| <= 2 && AllDigits(s)
    ensures DecimalValue(s) == MinutesLeft(etaMillis, clock)
  {
    var m := MinutesLeft(etaMillis, clock);
    DecimalRoundTrip(m);
    assert m >= 10 ==> DecimalString(m) == DecimalString(m / 10) + [DigitChar(m % 10)];
    DecimalString(m)
  }

  /** What `getEtaTimeLeft` returns when the arrival time parses; `None` for a ParseException. */
  function TimeLeft(f: EtaFields, p: Platform): Option<string>
  {
    match p.parseEta(f.eta)
    case None => None
    case Some(ms) => Some(MinutesLeftText(ms, p.clock))
  }

  /** Java's string conversion of a possibly-null `String`. */
  function NullableText(s: Option<string>): string
  {
    if s.Some? then s.value else "null"
  }

  /** The line `toString` returns, given the fields, the formatted arrival time and the minutes
      left (`None` when the arrival time did not parse). */
  function Line(f: EtaFields, etaTime: string, etaLeft: Option<string>): string {
    f.co + " " + f.route + " " + f.dir + " " + f.serviceType + " " + f.destTc + " "
      + etaTime + " " + NullableText(etaLeft) + "min(s)"
  }

  /** The line `toString` shows for a record with fields `f`. */
  function Rendered(f: EtaFields, p: Platform): string {
    Line(f, p.timeString(f.eta), TimeLeft(f, p))
  }

  /** The fields after `toString` (or `getEtaTimeLeft`) ran: the minutes left are stored when the
      arrival time parses, and the previous value stays otherwise. */
  function AfterTimeLeft(f: EtaFields, p: Platform): (g: EtaFields)
    ensures g == f.(etaTimeLeft := g.etaTimeLeft)
    ensures g.etaTimeLeft == if TimeLeft(f, p).Some? then TimeLeft(f, p) else f.etaTimeLeft
  {
    match TimeLeft(f, p)
    case None => f
    case Some(t) => f.(etaTimeLeft := Some(t))
  }

  /** The line is the operator, route, direction, service type, destination, formatted arrival
      time and minutes left, each followed by one space except the last, which runs straight
      into "min(s)". */
  lemma LineShape(f: EtaFields, etaTime: string, etaLeft: Option<string>)
    ensures var s := Line(f, etaTime, etaLeft);
      var head := f.co + " " + f.route + " " + f.dir + " " + f.serviceType + " " + f.destTc + " " + etaTime + " ";
      && s == head + NullableText(etaLeft) + "min(s)"
      && s[..|head|] == head
      && s[|s| - 6..] == "min(s)"
  {
    var head := f.co + " " + f.route + " " + f.dir + " " + f.serviceType + " " + f.destTc + " " + etaTime + " ";
    var s := Line(f, etaTime, etaLeft);
    assert s == head + (NullableText(etaLeft) + "min(s)");
  }

  /** An arrival time that does not parse leaves the minutes `null`: the line ends in "nullmin(s)". */
  lemma UnparsableEtaLine(f: EtaFields, p: Platform)
    requires p.parseEta(f.eta).None?
    ensures var s := Rendered(f, p); |s| >= 10 && s[|s| - 10..] == "nullmin(s)"
  {
    var head := f.co + " " + f.route + " " + f.dir + " " + f.serviceType + " " + f.destTc + " "
      + p.timeString(f.eta) + " ";
    assert Rendered(f, p) == head + "nullmin(s)";
  }

  /** An arrival time that parses ends the line in one or two digits, the minute count in
      0..59, followed by "min(s)". */
  lemma ParsableEtaLine(f: EtaFields, p: Platform)
    requires p.parseEta(f.eta).Some?
    ensures var s := Rendered(f, p);
      var m := MinutesLeftText(p.parseEta(f.eta).value, p.clock);
      && |s| >= |m| + 6
      && s[|s| - |m| - 6..] == m + "min(s)"
      && 0 <= DecimalValue(m) < 60
  {
    var m := MinutesLeftText(p.parseEta(f.eta).value, p.clock);
    var head := f.co + " " + f.route + " " + f.dir + " " + f.serviceType + " " + f.destTc + " "
      + p.timeString(f.eta) + " ";
    assert Rendered(f, p) == head + (m + "min(s)");
  }

  /** Rendering ignores the stored minutes left: a line rendered after an earlier `toString`
      equals the first one. */
  lemma RenderedIgnoresTimeLeft(f: EtaFields, g: EtaFields, p: Platform)
    requires g == f.(etaTimeLeft := g.etaTimeLeft)
    ensures Rendered(g, p) == Rendered(f, p)
  {
  }

  /** A second `toString` or `getEtaTimeLeft` stores nothing new. */
  lemma AfterTimeLeftIdempotent(f: EtaFields, p: Platform)
    ensures AfterTimeLeft(AfterTimeLeft(f, p), p) == AfterTimeLeft(f, p)
  {
  }

  /** A `StopEta` object. Getters are the fields of `Fields()`; each setter replaces one field. */
  class StopEta {
    var co: string
    var route: string
    var dir: string
    var serviceType: string
    var stopSeq: string
    var destTc: string
    var destSc: string
    var destEn: string
    var etaSeq: string
    var eta: string
    var rmkTc: string
    var rmkSc: string
    var rmkEn: string
    var dataTimestamp: string
    var etaTimeLeft: Option<string>

    function Fields(): EtaFields
      reads this
    {
      EtaFields(co, route, dir, serviceType, stopSeq, destTc, destSc, destEn, etaSeq, eta,
        rmkTc, rmkSc, rmkEn, dataTimestamp, etaTimeLeft)
    }

    /** `new StopEta()`: the Java fields start as `null`; here the strings start empty and the
        minutes left as `None`. */
    constructor ()
      ensures Fields() == EtaFields("", "", "", "", "", "", "", "", "", "", "", "", "", "", None)
    {
      co, route, dir, serviceType, stopSeq, destTc, destSc := "", "", "", "", "", "", "";
      destEn, etaSeq, eta, rmkTc, rmkSc, rmkEn, dataTimestamp := "", "", "", "", "", "", "";
      etaTimeLeft := None;
    }

    method SetCo(v: string)
      modifies this
      ensures Fields() == old(Fields()).(co := v)
    {
      co := v;
    }

    method SetRoute(v: string)
      modifies this
      ensures Fields() == old(Fields()).(route := v)
    {
      route := v;
    }

    method SetDir(v: string)
      modifies this
      ensures Fields() == old(Fields()).(dir := v)
    {
      dir := v;
    }

    method SetServiceType(v: string)
      modifies this
      ensures Fields() == old(Fields()).(serviceType := v)
    {
      serviceType := v;
    }

    /** `setSeq`. */
    method SetStopSeq(v: string)
      modifies this
      ensures Fields() == old(Fields()).(stopSeq := v)
    {
      stopSeq := v;
    }

    method SetDestTc(v: string)
      modifies this
      ensures Fields() == old(Fields()).(destTc := v)
    {
      destTc := v;
    }

    method SetDestSc(v: string)
      modifies this
      ensures Fields() == old(Fields()).(destSc := v)
    {
      destSc := v;
    }

    method SetDestEn(v: string)
      modifies this
      ensures Fields() == old(Fields()).(destEn := v)
    {
      destEn := v;
    }

    method SetEtaSeq(v: string)
      modifies this
      ensures Fields() == old(Fields()).(etaSeq := v)
    {
      etaSeq := v;
    }

    method SetEta(v: string)
      modifies this
      ensures Fields() == old(Fields()).(eta := v)
    {
      eta := v;
    }

    method SetRmkTc(v: string)
      modifies this
      ensures Fields() == old(Fields()).(rmkTc := v)
    {
      rmkTc := v;
    }

    method SetRmkSc(v: string)
      modifies this
      ensures Fields() == old(Fields()).(rmkSc := v)
    {
      rmkSc := v;
    }

    method SetRmkEn(v: string)
      modifies this
      ensures Fields() == old(Fields()).(rmkEn := v)
    {
      rmkEn := v;
    }

    method SetDataTimestamp(v: string)
      modifies this
      ensures Fields() == old(Fields()).(dataTimestamp := v)
    {
      dataTimestamp := v;
    }

    method SetEtaTimeLeft(v: Option<string>)
      modifies this
      ensures Fields() == old(Fields()).(etaTimeLeft := v)
    {
      etaTimeLeft := v;
    }

    /** `getEtaTimeLeft()`: `None` stands for the ParseException, which leaves the object as it
        was; otherwise the minutes left are stored in `etaTimeLeft` and that same value returned. */
    method GetEtaTimeLeft(p: Platform) returns (r: Option<string>)
      modifies this
      ensures r == TimeLeft(old(Fields()), p)
      ensures Fields() == AfterTimeLeft(old(Fields()), p)
      ensures r.Some? ==> etaTimeLeft == r
    {
      var parsed := p.parseEta(eta);
      if parsed.None? {
        return None;
      }
      etaTimeLeft := Some(MinutesLeftText(parsed.value, p.clock));
      r := etaTimeLeft;
    }

    /** `toString()`: asks for the minutes left, keeping `null` when that throws, and joins the
        fields into the display line. */
    method ToString(p: Platform) returns (line: string)
      modifies this
      ensures line == Rendered(old(Fields()), p)
      ensures Fields() == AfterTimeLeft(old(Fields()), p)
    {
      var etaLeft := GetEtaTimeLeft(p);
      var etaTime := p.timeString(eta);
      line := co + " " + route + " " + dir + " " + serviceType + " " + destTc + " "
        + etaTime + " " + NullableText(etaLeft) + "min(s)";
    }
  }
}
