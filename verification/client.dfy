/**
 * The client record (`AwClient`) and its construction. The HTTP transport it
 * owns is not part of the record: every request is modelled as a value
 * (module Requests) and every reply as an input (module Responses).
 */
module Client {
  import opened Wrappers
  import opened Numerals
  import opened Strings

  /**
   * `AwClient` without its transport: the base URL as it is written into every
   * request URL, and the identity used for buckets made by `create_bucket_simple`.
   */
  datatype AwClient = AwClient(baseurl: string, name: string, hostname: string)

  /** Why `AwClient::new` failed: the URL did not parse, or the HTTP client could not be built. */
  datatype ConstructionError = UrlError | BuildError

  /** The text handed to the URL parser: `http://{host}:{port}`. */
  function BaseUrlText(host: string, port: u16): string {
    "http://" + host + ":" + NatText(port)
  }

  /**
   * `AwClient::new`. The URL parser and its serialization are a parameter
   * (`parseUrl` gives the serialized URL, or `None` for a parse error);
   * `localHostname` is what the operating system reports; `transportBuilt` says
   * whether the HTTP client (with its 120-second timeout) could be built.
   */
  function New(
    host: string, port: u16, name: string, localHostname: string,
    parseUrl: string -> Option<string>, transportBuilt: bool): (r: Result<AwClient, ConstructionError>)
    ensures r.Ok? <==> parseUrl(BaseUrlText(host, port)).Some? && transportBuilt
    ensures r.Ok? ==> r.value.baseurl == parseUrl(BaseUrlText(host, port)).value
    ensures r.Ok? ==> r.value.name == name && r.value.hostname == localHostname
    ensures parseUrl(BaseUrlText(host, port)).None? ==> r == Err(UrlError)
    ensures parseUrl(BaseUrlText(host, port)).Some? && !transportBuilt ==> r == Err(BuildError)
  {
    match parseUrl(BaseUrlText(host, port))
    case None => Err(UrlError)
    case Some(baseurl) =>
      if transportBuilt then Ok(AwClient(baseurl, name, localHostname)) else Err(BuildError)
  }

  /**
   * The text handed to the URL parser splits back, at its last ':', into
   * `http://` with the host and the decimal port.
   */
  lemma BaseUrlTextSplits(host: string, port: u16)
    ensures var t := BaseUrlText(host, port);
      && LastIndexOf(t, ':') == Some(|"http://" + host|)
      && t[..|"http://" + host|] == "http://" + host
      && ParseI64(t[|"http://" + host| + 1..]) == Ok(port)
  {
    var t := BaseUrlText(host, port);
    var digits := NatText(port);
    assert ':' !in digits by {
      assert AllDigits(digits);
    }
    assert t == ("http://" + host) + [':'] + digits;
    LastIndexOfSplit("http://" + host, ':', digits);
    assert t[|"http://" + host| + 1..] == digits;
    assert IntText(port) == digits;
    IntTextRoundTrip(port);
  }
}
