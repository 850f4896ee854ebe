/**
 * `GreenplumVendorSupport`: the vendor adapter for Greenplum. It reports its vendor id,
 * recognises its database product by name, describes the parameters of its JDBC URL and builds
 * `jdbc:postgresql://host[:port][/database]` from a map of named arguments.
 */
module GreenplumVendorSupport {
  import opened Results
  import opened JavaLang

  /**
   * `VENDOR_ID`, which is `IMetadataEngine.GREENPLUM_NAME`. That constant's text is defined
   * outside this model, so it is left as an arbitrary string here.
   */
  const VENDOR_ID: string

  /** The detected database product; only its name is read. */
  datatype DatabaseProduct = DatabaseProduct(productName: string)

  /** `isSupported(product)`: `VENDOR_ID.equals(product.getProductName())`. */
  function IsSupported(product: DatabaseProduct): (r: bool)
    ensures r <==> |product.productName| == |VENDOR_ID|
                   && forall i :: 0 <= i < |VENDOR_ID| ==> product.productName[i] == VENDOR_ID[i]
  {
    VENDOR_ID == product.productName
  }

  /** `getVendorId()`: the product this adapter reports is one it supports. */
  function GetVendorId(): (id: string)
    ensures IsSupported(DatabaseProduct(id))
  {
    VENDOR_ID
  }

  /** Exactly one product name is supported: two supported products are the same product. */
  lemma SupportedProductIsUnique(p1: DatabaseProduct, p2: DatabaseProduct)
    requires IsSupported(p1) && IsSupported(p2)
    ensures p1 == p2
  {
  }

  // ---------------------------------------------------------------------------------------
  // URL template
  // ---------------------------------------------------------------------------------------

  /**
   * One `JdbcUrlParameter`: its name and the boolean passed with it, read here as "may be
   * omitted" (the parameter class itself is not part of this model).
   */
  datatype UrlParameter = UrlParameter(name: string, optional: bool)

  /** The display pattern handed to the template; its placeholder syntax is not interpreted. */
  const URL_PATTERN := "jdbc:postgresql://[hostname]:{port}/{database}"

  /** A `JdbcUrlTemplate`: a vendor id, a display pattern, and the parameters `add` appends in order. */
  class JdbcUrlTemplate {
    const vendorId: string
    const pattern: string
    var parameters: seq<UrlParameter>

    constructor (vendorId: string, pattern: string)
      ensures this.vendorId == vendorId && this.pattern == pattern && parameters == []
    {
      this.vendorId := vendorId;
      this.pattern := pattern;
      parameters := [];
    }

    method Add(parameter: UrlParameter)
      modifies this
      ensures parameters == old(parameters) + [parameter]
    {
      parameters := parameters + [parameter];
    }
  }

  /**
   * The parameters of the Greenplum URL, in declaration order: three distinct names, of which
   * only the host name may not be omitted.
   */
  function UrlParameters(): (ps: seq<UrlParameter>)
    ensures |ps| == 3 && ps[0].name == "hostname" && ps[1].name == "port" && ps[2].name == "database"
    ensures forall i, j :: 0 <= i < j < |ps| ==> ps[i].name != ps[j].name
    ensures forall i :: 0 <= i < |ps| ==> (!ps[i].optional <==> ps[i].name == "hostname")
  {
    [UrlParameter("hostname", false), UrlParameter("port", true), UrlParameter("database", true)]
  }

  /** `getJdbcUrlTemplate()`: a new template for this vendor, filled by three successive `add` calls. */
  method GetJdbcUrlTemplate() returns (template: JdbcUrlTemplate)
    ensures fresh(template)
    ensures template.vendorId == GetVendorId() && template.pattern == URL_PATTERN
    ensures template.parameters == UrlParameters()
  {
    template := new JdbcUrlTemplate(GetVendorId(), URL_PATTERN);
    template.Add(UrlParameter("hostname", false));
    template.Add(UrlParameter("port", true));
    template.Add(UrlParameter("database", true));
  }

  // ---------------------------------------------------------------------------------------
  // URL builder
  // ---------------------------------------------------------------------------------------

  /** The exception `buildJdbcUrl` throws, with its message. */
  datatype IllegalArgumentException = IllegalArgumentException(message: string)

  const MISSING_HOSTNAME := "cannot build JDBC url, missing mandatory argument 'hostname'"
  const INVALID_PORT := "cannot build JDBC url, 'port' value must be a valid port number"
  const URL_PREFIX := "jdbc:postgresql://"

  /** `arguments.get(key)`: `null`, here `None`, for a key that is not there. */
  function Get(arguments: map<string, string>, key: string): Option<string> {
    if key in arguments then Some(arguments[key]) else None
  }

  /**
   * The `":" + port` segment: nothing for an absent or empty port; otherwise the port must
   * parse as an `int` and is written back as its `Math.abs`.
   */
  function PortSegment(port: Option<string>): Result<string, IllegalArgumentException> {
    if port.None? || port.value == "" then
      Success("")
    else
      match IntegerValueOf(port.value)
      case None => Failure(IllegalArgumentException(INVALID_PORT))
      case Some(p) => Success(":" + IntToString(Abs(p)))
  }

  /** The `"/" + database` segment, present whenever the argument is, even when it is empty. */
  function DatabaseSegment(database: Option<string>): string {
    if database.None? then "" else "/" + database.value
  }

  /**
   * What `buildJdbcUrl(arguments)` returns or throws. The host name is checked before the port,
   * and a successful URL always starts with the prefix immediately followed by the host name.
   */
  function JdbcUrl(arguments: map<string, string>): (r: Result<string, IllegalArgumentException>)
    ensures "hostname" !in arguments ==> r == Failure(IllegalArgumentException(MISSING_HOSTNAME))
    ensures r.Failure? <==> "hostname" !in arguments || PortSegment(Get(arguments, "port")).Failure?
    ensures r.Failure? ==> r.error.message == MISSING_HOSTNAME || r.error.message == INVALID_PORT
    ensures r.Success? ==> URL_PREFIX + arguments["hostname"] <= r.value
  {
    if "hostname" !in arguments then
      Failure(IllegalArgumentException(MISSING_HOSTNAME))
    else
      match PortSegment(Get(arguments, "port"))
      case Failure(e) => Failure(e)
      case Success(port) =>
        Success(URL_PREFIX + arguments["hostname"] + port + DatabaseSegment(Get(arguments, "database")))
  }

  /** `buildJdbcUrl(arguments)`: appends each segment to `url` in turn, throwing on a bad argument. */
  method BuildJdbcUrl(arguments: map<string, string>) returns (r: Result<string, IllegalArgumentException>)
    ensures r == JdbcUrl(arguments)
  {
    var url := URL_PREFIX;
    var hostname := Get(arguments, "hostname");
    if hostname.None? {
      return Failure(IllegalArgumentException(MISSING_HOSTNAME));
    }
    url := url + hostname.value;
    var port := Get(arguments, "port");
    if port.Some? && port.value != "" {
      var parsed := IntegerValueOf(port.value);
      if parsed.None? {
        return Failure(IllegalArgumentException(INVALID_PORT));
      }
      url := url + (":" + IntToString(Abs(parsed.value)));
    }
    assert url == URL_PREFIX + hostname.value + PortSegment(port).value;
    var database := Get(arguments, "database");
    if database.Some? {
      url := url + ("/" + database.value);
    }
    assert url == URL_PREFIX + hostname.value + PortSegment(port).value + DatabaseSegment(database);
    return Success(url);
  }

  /** The host name is the only argument whose absence fails, and an empty host name is accepted. */
  lemma MandatoryParametersAgree(arguments: map<string, string>)
    ensures JdbcUrl(arguments) == Failure(IllegalArgumentException(MISSING_HOSTNAME))
        <==> exists i :: 0 <= i < |UrlParameters()| && !UrlParameters()[i].optional && UrlParameters()[i].name !in arguments
  {
    var ps := UrlParameters();
    if "hostname" !in arguments {
      assert !ps[0].optional && ps[0].name !in arguments;
    } else {
      assert MISSING_HOSTNAME != INVALID_PORT;
    }
  }

  /** Without a port, or with an empty one, no port segment is written. */
  lemma PortOmitted(arguments: map<string, string>)
    requires "hostname" in arguments
    requires "port" !in arguments || arguments["port"] == ""
    ensures JdbcUrl(arguments) == Success(URL_PREFIX + arguments["hostname"] + DatabaseSegment(Get(arguments, "database")))
  {
    assert URL_PREFIX + arguments["hostname"] + "" == URL_PREFIX + arguments["hostname"];
  }

  /**
   * A port that parses as `p` is written as ":" followed by |p| in canonical decimal (no sign,
   * no '+', no leading zeros), which reads back as |p|. The one exception is `INT_MIN`, whose
   * `Math.abs` is still negative: its segment starts ":-" and reads back as `INT_MIN`.
   */
  lemma PortSegmentNormalises(text: string, p: int)
    requires text != "" && IntegerValueOf(text) == Some(p)
    ensures PortSegment(Some(text)).Success?
    ensures var segment := PortSegment(Some(text)).value;
      |segment| > 1 && segment[0] == ':' && IntegerValueOf(segment[1..]) == Some(Abs(p))
    ensures p != INT_MIN ==>
      var digits := PortSegment(Some(text)).value[1..];
      AllDigits(digits) && (digits[0] == '0' ==> |digits| == 1) && Abs(p) == (if p < 0 then -p else p)
    ensures p == INT_MIN ==> PortSegment(Some(text)).value[..2] == ":-"
  {
    var a := Abs(p);
    var segment := ":" + IntToString(a);
    assert PortSegment(Some(text)) == Success(segment);
    assert segment[1..] == IntToString(a);
    IntegerValueOfToString(a);
    if p != INT_MIN {
      CanonicalDecimal(a);
    }
  }

  /** Keys other than hostname, port and database never affect the result. */
  lemma OnlyThreeKeysMatter(a1: map<string, string>, a2: map<string, string>)
    requires Get(a1, "hostname") == Get(a2, "hostname")
    requires Get(a1, "port") == Get(a2, "port")
    requires Get(a1, "database") == Get(a2, "database")
    ensures JdbcUrl(a1) == JdbcUrl(a2)
  {
  }

  /** A typical set of arguments. */
  lemma TypicalUrl()
    ensures JdbcUrl(map["hostname" := "db1", "port" := "5432", "database" := "sales"])
         == Success("jdbc:postgresql://db1:5432/sales")
  {
    var m := map["hostname" := "db1", "port" := "5432", "database" := "sales"];
    assert Get(m, "hostname") == Some("db1") && Get(m, "port") == Some("5432");
    assert DatabaseSegment(Get(m, "database")) == "/sales";
    Port5432();
    UrlFromSegments(m, "db1", ":5432", "/sales");
    assert URL_PREFIX + "db1" + ":5432" + "/sales" == "jdbc:postgresql://db1:5432/sales";
  }

  /** The URL is the concatenation of its segments. */
  lemma UrlFromSegments(arguments: map<string, string>, host: string, port: string, database: string)
    requires Get(arguments, "hostname") == Some(host)
    requires PortSegment(Get(arguments, "port")) == Success(port)
    requires DatabaseSegment(Get(arguments, "database")) == database
    ensures JdbcUrl(arguments) == Success(URL_PREFIX + host + port + database)
  {
  }

  lemma Port5432()
    ensures PortSegment(Some("5432")) == Success(":5432")
  {
    assert "5432"[..3] == "543" && "543"[..2] == "54" && "54"[..1] == "5" && "5"[..0] == "";
    assert DigitsValue("5432") == 5432;
    assert NatToDigits(5432) == "5432";
    assert IntegerValueOf("5432") == Some(5432);
    assert "5432" != "" && ":" + IntToString(Abs(5432)) == ":5432";
  }

  /** A '+' sign and leading zeros are normalised away. */
  lemma SignedPaddedPort()
    ensures PortSegment(Some("+0080")) == Success(":80")
  {
    assert "80"[..1] == "8" && "8"[..0] == "";
    assert NatToDigits(80) == "80";
    assert "+0080" == "+" + "00" + NatToDigits(80);
    SignAndLeadingZeros("+", "00", 80);
    assert ":" + IntToString(Abs(80)) == ":80";
  }

  /** A negative port is written without its sign. */
  lemma NegativePortUrl()
    ensures JdbcUrl(map["hostname" := "db1", "port" := "-10"]) == Success("jdbc:postgresql://db1:10")
  {
    assert "-10"[1..] == "10" && "10"[..1] == "1" && "1"[..0] == "";
    assert DigitsValue("10") == 10;
    assert NatToDigits(10) == "10";
    assert IntegerValueOf("-10") == Some(-10);
    assert "-10" != "" && ":" + IntToString(Abs(-10)) == ":10";
    assert PortSegment(Some("-10")) == Success(":10");
    assert URL_PREFIX + "db1" + ":10" + "" == "jdbc:postgresql://db1:10";
  }

  /** An empty host name is accepted, and a port that is not a number fails. */
  lemma EdgeCaseUrls()
    ensures JdbcUrl(map["hostname" := ""]) == Success("jdbc:postgresql://")
    ensures JdbcUrl(map["hostname" := "db1", "port" := "80a"]) == Failure(IllegalArgumentException(INVALID_PORT))
  {
    assert !IsDigit("80a"[2]);
    assert URL_PREFIX + "" + "" + "" == URL_PREFIX;
  }
}
