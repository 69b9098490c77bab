/** Concrete messages and what the model says the parser makes of them. */
module Scenarios {
  import opened Results
  import opened Text
  import opened Fields
  import opened Headers
  import opened Parser
  import opened ParserProperties
  import opened LineShapes

  /** A reason phrase with a space is cut at its first word. */
  lemma ReasonPhraseTruncated(cfg: Config)
    requires cfg.kind == StatusLine
    ensures HeaderOf(cfg, "HTTP/1.1 404 Not Found")
            == if cfg.checkHeader("HTTP/1.1", "404", "Not") then Ok(Response("HTTP/1.1", "404", "Not"))
               else Err(BadFormat)
  {
    var tokens := ["HTTP/1.1", "404", "Not", "Found"];
    StatusLineTokens();
    HeaderOfTokens(cfg, tokens);
  }

  lemma StatusLineTokens()
    ensures Join(["HTTP/1.1", "404", "Not", "Found"], " ") == "HTTP/1.1 404 Not Found"
    ensures (["HTTP/1.1", "404", "Not", "Found"] + ["", "", ""])[..3] == ["HTTP/1.1", "404", "Not"]
  {
    var tokens := ["HTTP/1.1", "404", "Not", "Found"];
    assert tokens[1..] == ["404", "Not", "Found"];
    assert tokens[1..][1..] == ["Not", "Found"];
    assert tokens[1..][1..][1..] == ["Found"];
  }

  /** A start-line with two tokens is padded with an empty third, which the
      sample rule `ThreeNonEmpty` rejects. */
  lemma ShortStartLineRejected()
    ensures StartTokens("GET /") == ["GET", "/", ""]
    ensures !ThreeNonEmpty(StartTokens("GET /")[0], StartTokens("GET /")[1], StartTokens("GET /")[2])
  {
    var tokens := ["GET", "/"];
    assert Join(tokens, " ") == "GET /" by {
      assert tokens[1..] == ["/"];
    }
    StartTokensOf(tokens);
  }

  /** Without ": " a host with a port is cut at every colon: the port is lost. */
  lemma HostPortLosesPort()
    ensures FieldOf("Host:localhost:8080") == Field("Host", "localhost")
  {
    var pieces := ["Host", "localhost", "8080"];
    HostPortPieces();
    MissingCharNoSep("Host:localhost:8080", ": ", ' ');
    FieldOfColonOnly(pieces);
  }

  lemma HostPortPieces()
    ensures Join(["Host", "localhost", "8080"], ":") == "Host:localhost:8080"
  {
    var pieces := ["Host", "localhost", "8080"];
    assert pieces[1..] == ["localhost", "8080"];
    assert pieces[1..][1..] == ["8080"];
  }

  /** With CR LF line endings the carriage return stays on each line, and a
      single field keeps it in its value. */
  lemma CarriageReturnStays()
    ensures Lines("X: 1\r\nY: 2\r\n") == ["X: 1\r", "Y: 2\r", ""]
    ensures FieldOf("X: 1\r") == Field("X", "1\r")
    ensures Lookup(Added(map[], FieldOf("X: 1\r")), "X") == Ok("1\r")
  {
    CrLfLines();
    LinesOfJoin(["X: 1\r", "Y: 2\r", ""]);
    CrLfValue();
  }

  lemma CrLfLines()
    ensures Join(["X: 1\r", "Y: 2\r", ""], "\n") == "X: 1\r\nY: 2\r\n"
  {
    var lines := ["X: 1\r", "Y: 2\r", ""];
    assert lines[1..] == ["Y: 2\r", ""];
    assert lines[1..][1..] == [""];
  }

  lemma CrLfValue()
    ensures FieldOf("X: 1\r") == Field("X", "1\r")
  {
    MissingCharNoSep("1\r", ": ", ':');
    FieldOfColonSpace("X", "1\r");
    assert "X" + ": " + "1\r" == "X: 1\r";
  }

  /** A field given once comes back untrimmed; given twice, its values come back
      trimmed, one per line, in order. */
  lemma SingleRawListTrimmed()
    ensures Lookup(Added(map[], Field("X", " 1 ")), "X") == Ok(" 1 ")
    ensures Lookup(Added(Added(map[], Field("X", " 1 ")), Field("X", "2")), "X") == Ok("1\n2")
  {
    var t := Added(Added(map[], Field("X", " 1 ")), Field("X", "2"));
    assert t["X"] == Many([Field("X", " 1 "), Field("X", "2")]);
    TwoValuesRendered();
  }

  /** Two values that trim to "1" and "2" render as "1\n2". */
  lemma TwoValuesRendered()
    ensures FieldText(Many([Field("X", " 1 "), Field("X", "2")])) == "1\n2"
  {
    var a, b := " 1 ", "2";
    assert Trim(a) == "1" by {
      assert TrimLeft(a) == TrimLeft("1 ") == "1 ";
      assert TrimRight("1 ") == TrimRight("1") == "1";
    }
    TrimUnchanged(b);
    RenderTwo(a, b);
    OneTwoText();
  }

  /** A two-field list renders as its trimmed values around a line feed. */
  lemma RenderTwo(a: string, b: string)
    ensures FieldText(Many([Field("X", a), Field("X", b)])) == Trim(a) + "\n" + Trim(b)
  {
    var values := TrimmedValues([Field("X", a), Field("X", b)]);
    assert values == [Trim(a), Trim(b)];
    JoinTwo(Trim(a), Trim(b), "\n");
  }

  lemma JoinTwo(a: string, b: string, sep: string)
    ensures Join([a, b], sep) == a + sep + b
  {
    assert [a, b][1..] == [b];
  }

  /** A literal equality kept apart from the scenarios that need it: proved
      here on its own it is cheap, proved inside them it is costly. */
  lemma OneTwoText()
    ensures "1" + "\n" + "2" == "1\n2"
  {
  }

  /** A parser whose field test accepts the two field lines and whose check
      accepts the request line ends with the header from that line and the two
      values of the repeated field joined. */
  lemma RepeatedFieldAfterRequestLine(cfg: Config)
    requires cfg.kind == RequestLine
    requires !cfg.isField("GET / HTTP/1.1") && cfg.checkHeader("GET", "/", "HTTP/1.1")
    requires cfg.isField("X: 1") && cfg.isField("X: 2")
    ensures var r := ExtractLines(cfg, State(map[], None), Lines("GET / HTTP/1.1\nX: 1\nX: 2\n"));
            && r.Completed?
            && r.state.header == Some(Request("GET", "/", "HTTP/1.1"))
            && Lookup(r.state.fields, "X") == Ok("1\n2")
  {
    RequestLines();
    LinesOfJoin(["GET / HTTP/1.1", "X: 1", "X: 2", ""]);
    RequestMessagePass(cfg);
    OneTwoRendered();
  }

  lemma RequestMessagePass(cfg: Config)
    requires cfg.kind == RequestLine
    requires !cfg.isField("GET / HTTP/1.1") && cfg.checkHeader("GET", "/", "HTTP/1.1")
    requires cfg.isField("X: 1") && cfg.isField("X: 2")
    ensures ExtractLines(cfg, State(map[], None), ["GET / HTTP/1.1", "X: 1", "X: 2", ""])
            == Completed(State(Added(Added(map[], Field("X", "1")), Field("X", "2")),
                               Some(Request("GET", "/", "HTTP/1.1"))))
  {
    var s0 := State(map[], None);
    var s1 := s0.(header := Some(Request("GET", "/", "HTTP/1.1")));
    var s2 := s1.(fields := Added(s1.fields, Field("X", "1")));
    var s3 := s2.(fields := Added(s2.fields, Field("X", "2")));
    RequestLineStep(cfg, s0);
    FieldLineTexts();
    FieldLineStep(cfg, s1, "X: 1", "1", s2);
    FieldLineStep(cfg, s2, "X: 2", "2", s3);
    ExtractCons(cfg, s3, "", [], s3);
    ExtractCons(cfg, s2, "X: 2", [""], s3);
    ExtractCons(cfg, s1, "X: 1", ["X: 2", ""], s2);
    ExtractCons(cfg, s0, "GET / HTTP/1.1", ["X: 1", "X: 2", ""], s1);
  }

  /** The two field lines as name, separator and value, kept apart for the same
      reason as `OneTwoText`. */
  lemma FieldLineTexts()
    ensures "X: 1" == "X" + ": " + "1" && "X: 2" == "X" + ": " + "2"
  {
  }

  lemma RequestLines()
    ensures Join(["GET / HTTP/1.1", "X: 1", "X: 2", ""], "\n") == "GET / HTTP/1.1\nX: 1\nX: 2\n"
  {
    var lines := ["GET / HTTP/1.1", "X: 1", "X: 2", ""];
    assert lines[1..] == ["X: 1", "X: 2", ""];
    assert lines[1..][1..] == ["X: 2", ""];
    assert lines[1..][1..][1..] == [""];
  }

  lemma RequestLineStep(cfg: Config, st: State)
    requires cfg.kind == RequestLine
    requires !cfg.isField("GET / HTTP/1.1") && cfg.checkHeader("GET", "/", "HTTP/1.1")
    ensures Step(cfg, st, "GET / HTTP/1.1") == Ok(st.(header := Some(Request("GET", "/", "HTTP/1.1"))))
  {
    RequestLineHeader(cfg);
    TrimUnchanged("GET / HTTP/1.1");
  }

  lemma RequestLineHeader(cfg: Config)
    requires cfg.kind == RequestLine && cfg.checkHeader("GET", "/", "HTTP/1.1")
    ensures HeaderOf(cfg, "GET / HTTP/1.1") == Ok(Request("GET", "/", "HTTP/1.1"))
  {
    var tokens := ["GET", "/", "HTTP/1.1"];
    RequestLineTokens();
    HeaderOfTokens(cfg, tokens);
    assert (tokens + ["", "", ""])[..3] == tokens;
  }

  lemma RequestLineTokens()
    ensures Join(["GET", "/", "HTTP/1.1"], " ") == "GET / HTTP/1.1"
  {
    var tokens := ["GET", "/", "HTTP/1.1"];
    assert tokens[1..] == ["/", "HTTP/1.1"];
    assert tokens[1..][1..] == ["HTTP/1.1"];
  }

  lemma FieldLineStep(cfg: Config, st: State, line: string, v: string, next: State)
    requires (v == "1" || v == "2") && line == "X" + ": " + v
    requires cfg.isField(line)
    requires next == st.(fields := Added(st.fields, Field("X", v)))
    ensures Step(cfg, st, line) == Ok(next)
  {
    MissingCharNoSep(v, ": ", ':');
    FieldOfColonSpace("X", v);
    TrimUnchanged(line);
  }

  lemma OneTwoRendered()
    ensures Lookup(Added(Added(map[], Field("X", "1")), Field("X", "2")), "X") == Ok("1\n2")
  {
    var t := Added(Added(map[], Field("X", "1")), Field("X", "2"));
    assert t["X"] == Many([Field("X", "1"), Field("X", "2")]);
    TrimUnchanged("1");
    TrimUnchanged("2");
    RenderTwo("1", "2");
    OneTwoText();
  }

  /** A request line of three space-free tokens followed by one `Name: value`
      line yields the request header with exactly those tokens, and `get` on the
      name returns the value as written. */
  lemma RequestWithOneField(cfg: Config, httpMethod: string, path: string, protocol: string,
                            name: string, value: string)
    requires cfg.kind == RequestLine
    requires httpMethod != [] && !IsTrimChar(httpMethod[0])
    requires forall t :: t in [httpMethod, path, protocol] ==> ' ' !in t && '\n' !in t
    requires ':' !in name && '\n' !in name && '\n' !in value && !Contains(value, ": ")
    requires !cfg.isField(httpMethod + " " + path + " " + protocol) && cfg.checkHeader(httpMethod, path, protocol)
    requires cfg.isField(name + ": " + value)
    ensures var raw := httpMethod + " " + path + " " + protocol + "\n" + name + ": " + value + "\n";
            var r := ExtractLines(cfg, State(map[], None), Lines(raw));
            && r.Completed?
            && r.state.header == Some(Request(httpMethod, path, protocol))
            && Lookup(r.state.fields, name) == Ok(value)
  {
    var start := httpMethod + " " + path + " " + protocol;
    var line := name + ": " + value;
    RequestText(start, line, httpMethod, path, protocol, name, value);
    var s0 := State(map[], None);
    var s1 := s0.(header := Some(Request(httpMethod, path, protocol)));
    var s2 := s1.(fields := Added(s1.fields, Field(name, value)));
    StartLineSteps(cfg, s0, httpMethod, path, protocol);
    FieldLineSteps(cfg, s1, name, value);
    ThreeLinePass(cfg, s0, s1, s2, start, line);
  }

  /** The raw text is the start-line and the field line, each ended by a line feed. */
  lemma RequestText(start: string, line: string, httpMethod: string, path: string, protocol: string,
                    name: string, value: string)
    requires start == httpMethod + " " + path + " " + protocol && line == name + ": " + value
    requires forall t :: t in [httpMethod, path, protocol] ==> '\n' !in t
    requires '\n' !in name && '\n' !in value
    ensures Lines(httpMethod + " " + path + " " + protocol + "\n" + name + ": " + value + "\n") == [start, line, ""]
  {
    assert '\n' !in start;
    assert '\n' !in line;
    var raw := start + "\n" + line + "\n";
    assert raw == httpMethod + " " + path + " " + protocol + "\n" + name + ": " + value + "\n";
    ThreeLines(start, line, raw);
  }

  /** The pass over the three lines, given how each steps. */
  lemma ThreeLinePass(cfg: Config, s0: State, s1: State, s2: State, start: string, line: string)
    requires Step(cfg, s0, start) == Ok(s1) && Step(cfg, s1, line) == Ok(s2)
    ensures ExtractLines(cfg, s0, [start, line, ""]) == Completed(s2)
  {
    assert Step(cfg, s2, "") == Ok(s2);
    ExtractCons(cfg, s2, "", [], s2);
    assert [""] == [""] + [];
    ExtractCons(cfg, s1, line, [""], s2);
    ExtractCons(cfg, s0, start, [line, ""], s1);
    assert [start] + [line, ""] == [start, line, ""];
  }

  /** The raw text of a start-line and a field line, each ended by a line feed. */
  lemma ThreeLines(start: string, line: string, raw: string)
    requires '\n' !in start && '\n' !in line && raw == start + "\n" + line + "\n"
    ensures Lines(raw) == [start, line, ""]
  {
    var lines := [start, line, ""];
    JoinPrepend(start, [line, ""], "\n");
    assert [start] + [line, ""] == lines;
    JoinTwo(line, "", "\n");
    assert line + "\n" + "" == line + "\n";
    assert Join(lines, "\n") == raw;
    LinesOfJoin(lines);
  }

  lemma StartLineSteps(cfg: Config, st: State, httpMethod: string, path: string, protocol: string)
    requires cfg.kind == RequestLine
    requires httpMethod != [] && !IsTrimChar(httpMethod[0])
    requires forall t :: t in [httpMethod, path, protocol] ==> ' ' !in t
    requires !cfg.isField(httpMethod + " " + path + " " + protocol) && cfg.checkHeader(httpMethod, path, protocol)
    ensures Step(cfg, st, httpMethod + " " + path + " " + protocol)
            == Ok(st.(header := Some(Request(httpMethod, path, protocol))))
  {
    var tokens := [httpMethod, path, protocol];
    var start := httpMethod + " " + path + " " + protocol;
    JoinPrepend(httpMethod, [path, protocol], " ");
    assert [httpMethod] + [path, protocol] == tokens;
    JoinTwo(path, protocol, " ");
    assert Join(tokens, " ") == start;
    HeaderOfTokens(cfg, tokens);
    assert (tokens + ["", "", ""])[..3] == tokens;
    TrimShape(start);
    assert !IsTrimChar(start[0]);
    assert !IsBlank(start);
  }

  lemma FieldLineSteps(cfg: Config, st: State, name: string, value: string)
    requires ':' !in name && !Contains(value, ": ")
    requires cfg.isField(name + ": " + value)
    ensures Step(cfg, st, name + ": " + value) == Ok(st.(fields := Added(st.fields, Field(name, value))))
  {
    var line := name + ": " + value;
    FieldOfColonSpace(name, value);
    TrimShape(line);
    assert line[|name|] == ':';
  }
}
