/** HttpParser: what the callbacks of the push parser are put together to. */
module HttpParsers {
  import opened HttpTypes
  import opened HttpMachine
  import opened HttpRun
  import opened HttpInvariant
  import opened HttpExecute

  // ---- URLs ---------------------------------------------------------------------------------

  /** The value of a hexadecimal digit, and of every other letter too. */
  function FromHex(x: char): (y: int)
    ensures 0 <= y <= 35
  {
    if 'A' <= x <= 'Z' then x as int - 'A' as int + 10
    else if 'a' <= x <= 'z' then x as int - 'a' as int + 10
    else if '0' <= x <= '9' then x as int - '0' as int
    else 0
  }

  /** A percent sign too close to the end is dropped. */
  function Decoded(s: string): string {
    if s == "" then ""
    else if s[0] == '+' then " " + Decoded(s[1..])
    else if s[0] != '%' then [s[0]] + Decoded(s[1..])
    else if |s| <= 2 then Decoded(s[1..])
    else [((FromHex(s[1]) * 16 + FromHex(s[2])) % 256) as char] + Decoded(s[3..])
  }

  lemma {:induction false} DecodedShorter(s: string)
    ensures |Decoded(s)| <= |s|
    ensures '%' in s ==> |Decoded(s)| < |s|
    decreases |s|
  {
    if s != "" {
      assert s == [s[0]] + s[1..];
      DecodedShorter(s[1..]);
      if s[0] == '%' && |s| > 2 {
        DecodedShorter(s[3..]);
      }
    }
  }

  /** Decoding leaves exactly those strings alone that have neither a plus nor a percent sign. */
  lemma {:induction false} DecodedSame(s: string)
    ensures Decoded(s) == s <==> '+' !in s && '%' !in s
  {
    if s != "" {
      assert s == [s[0]] + s[1..];
      DecodedShorter(s);
      DecodedSame(s[1..]);
      if s[0] != '%' {
        assert Decoded(s)[1..] == Decoded(s[1..]);
      }
    }
  }

  /** What one character, or an escape of three, adds. */
  lemma DecodedNext(str: string, i: nat, decoded: string)
    requires i < |str|
    ensures var rest := Decoded(str[i..]);
      decoded + rest ==
      if str[i] == '+' then decoded + " " + Decoded(str[i + 1..])
      else if str[i] != '%' then decoded + [str[i]] + Decoded(str[i + 1..])
      else if |str| - i <= 2 then decoded + Decoded(str[i + 1..])
      else decoded + [((FromHex(str[i + 1]) * 16 + FromHex(str[i + 2])) % 256) as char] + Decoded(str[i + 3..])
  {
    hide FromHex;
    var rest := str[i..];
    assert rest[1..] == str[i + 1..];
    if str[i] == '%' && |str| - i > 2 {
      assert rest[3..] == str[i + 3..];
    }
  }

  method UrlDecode(str: string) returns (decoded: string)
    ensures decoded == Decoded(str)
  {
    hide Decoded, FromHex;
    decoded := "";
    var i := 0;
    assert str[0..] == str;
    assert decoded + Decoded(str) == Decoded(str);
    while i < |str|
      invariant 0 <= i <= |str|
      invariant decoded + Decoded(str[i..]) == Decoded(str)
    {
      DecodedNext(str, i, decoded);
      if str[i] == '+' {
        decoded := decoded + " ";
      } else if str[i] == '%' {
        if i + 2 < |str| {
          var high, low := FromHex(str[i + 1]), FromHex(str[i + 2]);
          var c := ((high * 16 + low) % 256) as char;
          decoded := decoded + [c];
          i := i + 2;
        }
      } else {
        decoded := decoded + [str[i]];
      }
      i := i + 1;
    }
    DecodedEnd(str[i..], decoded);
  }

  lemma DecodedEnd(rest: string, decoded: string)
    requires rest == ""
    ensures decoded + Decoded(rest) == decoded
  {
  }

  /** What stands before the next `flag`, or before the end. */
  function GetStringBefore(flag: char, s: string, offset: nat): (r: string)
    requires offset <= |s|
    ensures offset + |r| <= |s| && s[offset..offset + |r|] == r && flag !in r
    ensures offset + |r| < |s| ==> s[offset + |r|] == flag
    decreases |s| - offset
  {
    if offset == |s| || s[offset] == flag then ""
    else
      var r := GetStringBefore(flag, s, offset + 1);
      assert s[offset..offset + 1 + |r|] == [s[offset]] + r;
      [s[offset]] + r
  }

  /** There is only one such string. */
  lemma BeforeIs(flag: char, s: string, offset: nat, k: string)
    requires offset + |k| <= |s| && s[offset..offset + |k|] == k && flag !in k
    requires offset + |k| < |s| ==> s[offset + |k|] == flag
    ensures GetStringBefore(flag, s, offset) == k
  {
    var r := GetStringBefore(flag, s, offset);
    assert forall i | 0 <= i < |k| :: s[offset + i] == k[i] && k[i] in k;
    assert forall i | 0 <= i < |r| :: s[offset + i] == r[i] && r[i] in r;
  }

  function AddParameter(params: map<string, string>, key: string, value: string): map<string, string> {
    if key != "" then params[key := value] else if value != "" then params[value := ""] else params
  }

  /** The parameters found from `offset` on, added to those found before. */
  function ParametersFrom(s: string, offset: nat, params: map<string, string>): map<string, string>
    decreases |s| - offset
  {
    if offset >= |s| then params
    else
      var key := GetStringBefore('=', s, offset);
      var next := offset + |key| + 1;
      var value := if next < |s| then GetStringBefore('&', s, next) else "";
      ParametersFrom(s, if next < |s| then next + |value| + 1 else next, AddParameter(params, key, value))
  }

  lemma AddedParameter(params: map<string, string>, key: string, value: string)
    ensures AddParameter(params, key, value) ==
      if key != "" then params[key := value] else if value != "" then params[value := ""] else params
  {
  }

  lemma ParametersFromStep(s: string, offset: nat, params: map<string, string>)
    requires offset < |s|
    ensures var key := GetStringBefore('=', s, offset);
      var next := offset + |key| + 1;
      var value := if next < |s| then GetStringBefore('&', s, next) else "";
      ParametersFrom(s, offset, params) ==
      ParametersFrom(s, if next < |s| then next + |value| + 1 else next, AddParameter(params, key, value))
  {
    hide GetStringBefore;
  }

  lemma ParametersFromEnd(s: string, offset: nat, params: map<string, string>)
    requires offset >= |s|
    ensures ParametersFrom(s, offset, params) == params
  {
  }

  // ---- The callbacks ------------------------------------------------------------------------

  /** What has been received.  `nameSeen` and `valueSeen` are the two bits of the header state. */
  datatype Received = Received(
    url: string, urlAndParams: string, status: int, verb: string, nameSeen: bool, valueSeen: bool,
    headerName: string, headerValue: string, headers: map<string, string>, parameters: map<string, string>,
    body: string, complete: bool)

  /** The status is not set before a message is complete; any value stands for it here. */
  function NothingReceived(status: int): Received {
    Received("", "", status, "", false, false, "", "", map[], map[], "", false)
  }

  /** A header is complete when both of its parts have come. */
  function StoreHeader(r: Received): Received {
    if r.nameSeen && r.valueSeen
    then r.(nameSeen := false, valueSeen := false, headers := r.headers[r.headerName := r.headerValue])
    else r
  }

  function Finished(r: Received, verb: Method, statusCode: int): Received {
    var text := Decoded(r.urlAndParams);
    var url := GetStringBefore('?', text, 0);
    r.(verb := MethodString(verb), status := statusCode, urlAndParams := text, url := url,
       parameters := ParametersFrom(text, |url| + 1, r.parameters), complete := true)
  }

  function Apply(r: Received, e: Event): Received {
    match e
    case Data(kind, bytes) =>
      if bytes == "" then r
      else if kind == Url then r.(urlAndParams := r.urlAndParams + bytes)
      else if kind == Field then StoreHeader(r.(headerName := bytes, nameSeen := true))
      else if kind == Value then StoreHeader(r.(headerValue := bytes, valueSeen := true))
      else if kind == Body then r.(body := r.body + bytes)
      else r
    case MessageComplete(verb, statusCode) => Finished(r, verb, statusCode)
    case _ => r
  }

  function ApplyAll(r: Received, events: seq<Event>): Received {
    if events == [] then r else Apply(ApplyAll(r, events[..|events| - 1]), events[|events| - 1])
  }

  lemma {:induction false} ApplyAllAppend(r: Received, a: seq<Event>, b: seq<Event>)
    ensures ApplyAll(r, a + b) == ApplyAll(ApplyAll(r, a), b)
    decreases |b|
  {
    hide Apply;
    if b == [] {
      assert a + b == a;
    } else {
      var n := |b| - 1;
      assert (a + b)[..|a + b| - 1] == a + b[..n];
      ApplyAllAppend(r, a, b[..n]);
    }
  }

  class HttpParser {
    const http: PushParser
    var url: string
    var urlAndParams: string
    var status: int
    var verb: string
    var nameSeen: bool
    var valueSeen: bool
    var headerName: string
    var headerValue: string
    var headers: map<string, string>
    var parameters: map<string, string>
    var body: string
    var complete: bool

    ghost function View(): Received
      reads this
    {
      Received(url, urlAndParams, status, verb, nameSeen, valueSeen, headerName, headerValue, headers, parameters, body, complete)
    }

    constructor ()
      ensures fresh(http) && http.Valid() && http.View() == InitialParser(Both) && http.nread == 0
      ensures View() == NothingReceived(View().status)
    {
      http := new PushParser(Both);
      url, urlAndParams, verb, headerName, headerValue, body := "", "", "", "", "", "";
      headers, parameters := map[], map[];
      nameSeen, valueSeen, complete := false, false, false;
    }

    method OnUrl(bytes: string)
      modifies this
      ensures View() == Apply(old(View()), Data(Url, bytes))
    {
      if |bytes| == 0 {
        return;
      }
      urlAndParams := urlAndParams + bytes;
    }

    method OnHeaderName(bytes: string)
      modifies this
      ensures View() == Apply(old(View()), Data(Field, bytes))
    {
      if |bytes| == 0 {
        return;
      }
      headerName := bytes;
      nameSeen := true;
      if nameSeen && valueSeen {
        nameSeen, valueSeen := false, false;
        headers := headers[headerName := headerValue];
      }
    }

    method OnHeaderValue(bytes: string)
      modifies this
      ensures View() == Apply(old(View()), Data(Value, bytes))
    {
      if |bytes| == 0 {
        return;
      }
      headerValue := bytes;
      valueSeen := true;
      if nameSeen && valueSeen {
        nameSeen, valueSeen := false, false;
        headers := headers[headerName := headerValue];
      }
    }

    method OnBody(bytes: string)
      modifies this
      ensures View() == Apply(old(View()), Data(Body, bytes))
    {
      if |bytes| == 0 {
        return;
      }
      body := body + bytes;
    }

    method OnComplete(m: Method, statusCode: int)
      modifies this
      ensures View() == Apply(old(View()), MessageComplete(m, statusCode))
    {
      hide Decoded, GetStringBefore, ParametersFrom, MethodString;
      verb := MethodString(m);
      status := statusCode;
      ParseUrlAndParam();
      complete := true;
    }

    method ParseUrlAndParam()
      modifies this`urlAndParams, this`url, this`parameters
      ensures urlAndParams == Decoded(old(urlAndParams)) && url == GetStringBefore('?', urlAndParams, 0)
      ensures parameters == ParametersFrom(urlAndParams, |url| + 1, old(parameters))
    {
      hide *;
      urlAndParams := UrlDecode(urlAndParams);
      url := GetStringBefore('?', urlAndParams, 0);
      ghost var s, all := urlAndParams, ParametersFrom(urlAndParams, |url| + 1, parameters);
      var offset := |url| + 1;
      while offset < |urlAndParams|
        invariant urlAndParams == s && ParametersFrom(s, offset, parameters) == all
        modifies this`parameters
      {
        ParametersFromStep(s, offset, parameters);
        ghost var before := parameters;
        var key := GetStringBefore('=', urlAndParams, offset);
        offset := offset + |key| + 1;
        var value := "";
        if offset < |urlAndParams| {
          value := GetStringBefore('&', urlAndParams, offset);
          offset := offset + |value| + 1;
        }
        if key != "" {
          parameters := parameters[key := value];
        } else if value != "" {
          parameters := parameters[value := ""];
        }
        AddedParameter(before, key, value);
      }
      ParametersFromEnd(s, offset, parameters);
    }

    method Dispatch(e: Event)
      modifies this
      ensures View() == Apply(old(View()), e)
    {
      match e {
        case Data(kind, bytes) =>
          match kind {
            case Url => OnUrl(bytes);
            case Field => OnHeaderName(bytes);
            case Value => OnHeaderValue(bytes);
            case Body => OnBody(bytes);
            case Status =>
          }
        case MessageComplete(m, statusCode) => OnComplete(m, statusCode);
        case _ =>
      }
    }

    /** One buffer; an empty one stands for the end of the input.  Unless the header limit is
        exceeded the callbacks are those of the byte machine, applied in their order. */
    method Parse(data: string, ghost count: nat) returns (ok: bool)
      requires http.Valid() && |data| < TWO32 - MAX_HEADER_SIZE && count <= http.nread
      modifies this, http
      ensures http.Valid() && (ok <==> http.errno.Ok?)
      ensures !old(http.errno).Ok? ==> View() == old(View()) && http.View() == old(http.View())
      ensures old(http.errno).Ok? && data == "" ==>
        var (p, _, events) := AtEof(old(http.View()));
        http.View() == p && View() == ApplyAll(old(View()), events)
      ensures old(http.errno).Ok? && data != "" && !http.errno.HeaderOverflow? ==>
        var c := Call(old(http.View()), count, data);
        && http.errno == c.parser.errno && View() == ApplyAll(old(View()), c.events)
        && (ok ==> http.View() == c.parser)
        && (ok ==> http.nread == c.headerBytes + AheadAfter(old(http.View()), count, data, old(http.nread) - count))
        && (ok ==> !Exceeds(Begin(old(http.View()), count), data, old(http.nread) - count))
      ensures old(http.errno).Ok? && data != "" && http.errno.HeaderOverflow? ==>
        Exceeds(Begin(old(http.View()), count), data, old(http.nread) - count)
    {
      hide Call, Apply, Exceeds, AheadAfter;
      ghost var before := View();
      var consumed, events := http.Execute(data, count);
      var i := 0;
      while i < |events|
        invariant 0 <= i <= |events| && View() == ApplyAll(before, events[..i])
        modifies this
      {
        assert events[..i + 1][..i] == events[..i];
        Dispatch(events[i]);
        i := i + 1;
      }
      assert events[..i] == events;
      ok := http.errno.Ok?;
    }

    method Reset()
      modifies this, http
      ensures http.Valid() && http.View() == InitialParser(Both) && http.nread == 0
      ensures View() == NothingReceived(0)
    {
      http.Init(Both);
      url, urlAndParams, verb, headerName, headerValue, body := "", "", "", "", "", "";
      headers, parameters := map[], map[];
      nameSeen, valueSeen, complete, status := false, false, false, 0;
    }
  }
}
