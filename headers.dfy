/** The start-line of a message once parsed, and `HttpResponseHeader`, the
    mutable object that carries the response form of it. */
module Headers {

  /** Which start-line a parser builds: the request form `METHOD PATH PROTOCOL`
      or the status form `PROTOCOL CODE MESSAGE`. */
  datatype StartLineKind = RequestLine | StatusLine

  /** A parsed start-line. The status code stays text: it is never parsed or
      range-checked. */
  datatype Header =
    | Request(httpMethod: string, path: string, protocol: string)
    | Response(protocol: string, code: string, message: string)

  /** The header built from the three start-line tokens, in the order the parser
      passes them. */
  function MakeHeader(kind: StartLineKind, first: string, second: string, third: string): (h: Header)
    ensures h.Request? <==> kind == RequestLine
    ensures h.Request? ==> h == Request(first, second, third)
    ensures h.Response? ==> h == Response(first, second, third)
  {
    match kind
    case RequestLine => Request(first, second, third)
    case StatusLine => Response(first, second, third)
  }

  class HttpResponseHeader {
    var protocol: string
    var code: string
    var message: string

    /** The header value this object currently holds. */
    function View(): (h: Header)
      reads this
      ensures h.Response?
    {
      Response(protocol, code, message)
    }

    constructor (protocol: string, code: string, message: string)
      ensures this.protocol == protocol && this.code == code && this.message == message
      ensures View() == MakeHeader(StatusLine, protocol, code, message)
    {
      this.protocol := protocol;
      this.code := code;
      this.message := message;
    }

    method GetProtocol() returns (r: string)
      ensures r == protocol
    {
      r := protocol;
    }

    /** Replaces the protocol only and returns the same object. */
    method SetProtocol(protocol: string) returns (self: HttpResponseHeader)
      modifies this
      ensures self == this
      ensures this.protocol == protocol && code == old(code) && message == old(message)
    {
      this.protocol := protocol;
      self := this;
    }

    method GetCode() returns (r: string)
      ensures r == code
    {
      r := code;
    }

    /** Replaces the status code only and returns the same object. */
    method SetCode(code: string) returns (self: HttpResponseHeader)
      modifies this
      ensures self == this
      ensures protocol == old(protocol) && this.code == code && message == old(message)
    {
      this.code := code;
      self := this;
    }

    method GetMessage() returns (r: string)
      ensures r == message
    {
      r := message;
    }

    /** Replaces the reason message only and returns the same object. */
    method SetMessage(message: string) returns (self: HttpResponseHeader)
      modifies this
      ensures self == this
      ensures protocol == old(protocol) && code == old(code) && this.message == message
    {
      this.message := message;
      self := this;
    }
  }

  /** The three getters read together. */
  method ReadBack(h: HttpResponseHeader) returns (r: Header)
    ensures r == h.View()
  {
    var p := h.GetProtocol();
    var c := h.GetCode();
    var m := h.GetMessage();
    r := Response(p, c, m);
  }

  /** What a client can rely on: a getter returns the value most recently stored
      by the constructor or a setter, and each setter leaves the other two fields
      alone. The header is read back after each of the three setters. */
  method SettersThenGetters(protocol: string, code: string, message: string,
                            newProtocol: string, newCode: string, newMessage: string)
    returns (afterCode: Header, afterProtocol: Header, afterMessage: Header)
    ensures afterCode == Response(protocol, newCode, message)
    ensures afterProtocol == Response(newProtocol, newCode, message)
    ensures afterMessage == Response(newProtocol, newCode, newMessage)
  {
    var h := new HttpResponseHeader(protocol, code, message);
    var same := h.SetCode(newCode);
    afterCode := ReadBack(same);
    same := h.SetProtocol(newProtocol);
    afterProtocol := ReadBack(same);
    same := same.SetMessage(newMessage);
    afterMessage := ReadBack(h);
  }
}
