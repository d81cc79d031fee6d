/** The printer of HTTP messages. */
module HttpEncoders {
  import opened OrderedMap

  function Digit10(n: nat): char
    requires n < 10
  {
    ('0' as int + n) as char
  }

  /** How a stream prints a size. */
  function Decimal(n: nat): (s: string)
    ensures s != ""
  {
    if n < 10 then [Digit10(n)] else Decimal(n / 10) + [Digit10(n % 10)]
  }

  /** What an encoder has been given. */
  datatype Content = Content(
    headers: seq<Entry>, statusCode: nat, statusMessage: string, closeConnection: bool, body: string,
    verb: string, url: string, parameters: seq<Entry>)

  function ParametersText(params: seq<Entry>): string {
    if params == [] then ""
    else
      var n := |params| - 1;
      ParametersText(params[..n]) + (if n == 0 then "?" else "&") + params[n].key + "=" + params[n].value
  }

  function HeaderLine(h: Entry): string { h.key + ": " + h.value + "\r\n" }

  function HeadersText(headers: seq<Entry>): string {
    if headers == [] then "" else HeadersText(headers[..|headers| - 1]) + HeaderLine(headers[|headers| - 1])
  }

  function ConnectionValue(close: bool): string { if close then "close" else "Keep-Alive" }

  function LengthLine(c: Content): string { HeaderLine(Entry("Content-Length", Decimal(|c.body|))) }

  function ConnectionLine(c: Content): string { HeaderLine(Entry("Connection", ConnectionValue(c.closeConnection))) }

  /** The header section of both kinds of message, and the empty line behind it. */
  function HeaderSection(c: Content): string { LengthLine(c) + ConnectionLine(c) + HeadersText(c.headers) + "\r\n" }

  function RequestLine(c: Content): string { c.verb + " " + (c.url + ParametersText(c.parameters)) + " HTTP/1.1\r\n" }

  function RequestText(c: Content): string { RequestLine(c) + HeaderSection(c) + c.body }

  function StatusLine(c: Content): string { "HTTP/1.1 " + Decimal(c.statusCode) + " " + c.statusMessage + "\r\n" }

  function ResponseText(c: Content): string { StatusLine(c) + HeaderSection(c) + c.body }

  class HttpEncoder {
    var headers: seq<Entry>
    var statusCode: nat
    var statusMessage: string
    var closeConnection: bool
    var body: string
    var verb: string
    var url: string
    var parameters: seq<Entry>

    ghost function View(): Content
      reads this
    {
      Content(headers, statusCode, statusMessage, closeConnection, body, verb, url, parameters)
    }

    ghost predicate Valid()
      reads this
    {
      Sorted(headers) && Sorted(parameters)
    }

    constructor (close: bool)
      ensures Valid() && View() == Content([], 0, "", close, "", "", "", [])
    {
      headers, statusCode, statusMessage, closeConnection, body := [], 0, "", close, "";
      verb, url, parameters := "", "", [];
    }

    method SetStatusCode(code: nat)
      modifies this
      ensures View() == old(View()).(statusCode := code)
    {
      statusCode := code;
    }

    method SetStatusMessage(message: string)
      modifies this
      ensures View() == old(View()).(statusMessage := message)
    {
      statusMessage := message;
    }

    method SetMethod(m: string)
      modifies this
      ensures View() == old(View()).(verb := m)
    {
      verb := m;
    }

    method SetUrl(u: string)
      modifies this
      ensures View() == old(View()).(url := u)
    {
      url := u;
    }

    method SetBody(b: string)
      modifies this
      ensures View() == old(View()).(body := b)
    {
      body := b;
    }

    /** The header is found under its name afterwards, the others where they were. */
    method AddHeader(key: string, value: string)
      requires Valid()
      modifies this
      ensures Valid() && MapOf(headers) == MapOf(old(headers))[key := value]
      ensures View() == old(View()).(headers := headers)
    {
      PutSorted(headers, key, value);
      PutMeaning(headers, key, value);
      headers := Put(headers, key, value);
    }

    method AddParameter(key: string, value: string)
      requires Valid()
      modifies this
      ensures Valid() && MapOf(parameters) == MapOf(old(parameters))[key := value]
      ensures View() == old(View()).(parameters := parameters)
    {
      PutSorted(parameters, key, value);
      PutMeaning(parameters, key, value);
      parameters := Put(parameters, key, value);
    }

    method GetRequestString() returns (text: string)
      ensures text == RequestText(View())
    {
      var oss := verb + " " + url;
      var i := 0;
      assert oss + "" == oss;
      while i < |parameters|
        invariant 0 <= i <= |parameters|
        invariant oss == verb + " " + url + ParametersText(parameters[..i])
      {
        var sep := if i == 0 then "?" else "&";
        var p := parameters[i];
        assert parameters[..i + 1][..i] == parameters[..i];
        ghost var before := oss;
        oss := oss + sep;
        oss := oss + p.key + "=" + p.value;
        assert oss == verb + " " + url + (ParametersText(parameters[..i]) + sep + p.key + "=" + p.value);
        i := i + 1;
      }
      assert parameters[..i] == parameters;
      oss := oss + " HTTP/1.1\r\n";
      assert verb + " " + url + ParametersText(parameters) == verb + " " + (url + ParametersText(parameters));
      text := AppendToStream(oss);
      assert oss + (HeaderSection(View()) + body) == oss + HeaderSection(View()) + body;
    }

    method GetReponseString() returns (text: string)
      ensures text == ResponseText(View())
    {
      var oss := "HTTP/1.1 " + Decimal(statusCode) + " " + statusMessage + "\r\n";
      text := AppendToStream(oss);
      assert oss + (HeaderSection(View()) + body) == oss + HeaderSection(View()) + body;
    }

    method AppendToStream(start: string) returns (oss: string)
      ensures oss == start + (HeaderSection(View()) + body)
    {
      hide HeaderLine, Decimal;
      oss := start + "Content-Length: " + Decimal(|body|) + "\r\n";
      LengthAppended(start, Decimal(|body|));
      var top := oss;
      if closeConnection {
        oss := oss + "Connection: close\r\n";
      } else {
        oss := oss + "Connection: Keep-Alive\r\n";
      }
      ConnectionAppended(top, View());
      ghost var first := start + LengthLine(View()) + ConnectionLine(View());
      assert first + "" == first;
      var i := 0;
      while i < |headers|
        invariant 0 <= i <= |headers|
        invariant oss == first + HeadersText(headers[..i])
      {
        var h := headers[i];
        assert headers[..i + 1][..i] == headers[..i];
        LineAppended(oss, h);
        oss := oss + h.key + ": " + h.value + "\r\n";
        Regroup(first, HeadersText(headers[..i]), HeaderLine(h));
        i := i + 1;
      }
      assert headers[..i] == headers;
      oss := oss + "\r\n";
      oss := oss + body;
      RegroupSection(start, View());
    }
  }

  lemma LengthAppended(oss: string, d: string)
    ensures oss + "Content-Length: " + d + "\r\n" == oss + HeaderLine(Entry("Content-Length", d))
  {
    assert "Content-Length" + ": " == "Content-Length: ";
  }

  lemma ConnectionAppended(oss: string, c: Content)
    ensures oss + (if c.closeConnection then "Connection: close\r\n" else "Connection: Keep-Alive\r\n") == oss + ConnectionLine(c)
  {
    assert "Connection" + ": " + "close" + "\r\n" == "Connection: close\r\n";
    assert "Connection" + ": " + "Keep-Alive" + "\r\n" == "Connection: Keep-Alive\r\n";
  }

  lemma LineAppended(oss: string, h: Entry)
    ensures oss + h.key + ": " + h.value + "\r\n" == oss + HeaderLine(h)
  {
  }

  lemma Regroup(a: string, b: string, c: string)
    ensures a + b + c == a + (b + c)
  {
  }

  lemma RegroupSection(start: string, c: Content)
    ensures start + LengthLine(c) + ConnectionLine(c) + HeadersText(c.headers) + "\r\n" + c.body
         == start + (HeaderSection(c) + c.body)
  {
    hide LengthLine, ConnectionLine, HeadersText;
    Regroup(start, LengthLine(c), ConnectionLine(c));
    Regroup(start, LengthLine(c) + ConnectionLine(c), HeadersText(c.headers));
    Regroup(start, LengthLine(c) + ConnectionLine(c) + HeadersText(c.headers), "\r\n");
    Regroup(start, HeaderSection(c), c.body);
  }
}
