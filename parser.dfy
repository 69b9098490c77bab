/** `AbstractHttpParser`: splits the raw message into lines, skips blank ones,
    and routes each other line either to the field collection or to the
    start-line handling that stores the header. */
module Parser {
  import opened Results
  import opened Text
  import opened Fields
  import opened Headers

  /** The field-line test (`HttpDataValidation::isField`). Its code is not part of
      this model; all the model relies on is that a line it accepts has a colon. */
  type FieldLineTest = t: string -> bool | forall line :: t(line) ==> ':' in line
    witness (line: string) => false

  /** The start-line check (`HttpDataValidation::checkHeaderOrRaiseError`) on the
      first three tokens; a `false` raises the bad-format error. */
  type StartLineCheck = (string, string, string) -> bool

  /** A sample start-line rule: all three tokens are non-empty. */
  predicate ThreeNonEmpty(first: string, second: string, third: string) {
    first != [] && second != [] && third != []
  }

  /** `HttpParserBadFormatException`. */
  datatype ParseError = BadFormat

  /** What a concrete parser supplies: the header variant its `setHttpHeader`
      builds, and the two validation rules. */
  datatype Config = Config(kind: StartLineKind, isField: FieldLineTest, checkHeader: StartLineCheck)

  /** The part of the parser's state that lines change. */
  datatype State = State(fields: Table, header: Option<Header>)

  /** How a pass over the lines ends: every line processed, or stopped at a
      start-line that failed the check, with the state reached before it. */
  datatype Extraction = Completed(state: State) | Aborted(state: State, error: ParseError)

  /** The lines of the raw text: split on line feed only. */
  function Lines(raw: string): seq<string> {
    Explode(raw, "\n")
  }

  predicate IsBlank(line: string) {
    Trim(line) == []
  }

  /** `splitRawLine`: explode on ": " when it occurs, else on ":" when that
      occurs, else nothing. */
  function SplitRawLine(line: string): seq<string> {
    if Contains(line, ": ") then Explode(line, ": ")
    else if ':' in line then Explode(line, ":")
    else []
  }

  /** `splitRawLine` yields no pieces exactly when the line has no colon, and
      otherwise at least two pieces that join back into the line with the
      separator it chose; with the ":" fallback no piece has a colon. */
  lemma SplitRawLineShape(line: string)
    ensures SplitRawLine(line) == [] <==> ':' !in line
    ensures ':' in line ==> |SplitRawLine(line)| >= 2
    ensures Contains(line, ": ") ==> Join(SplitRawLine(line), ": ") == line
    ensures ':' in line && !Contains(line, ": ") ==>
              Join(SplitRawLine(line), ":") == line
              && forall k :: 0 <= k < |SplitRawLine(line)| ==> ':' !in SplitRawLine(line)[k]
  {
    if Contains(line, ": ") {
      var i :| 0 <= i <= |line| && StartsAt(line, ": ", i);
      assert line[i] == line[i..i + 2][0] == ':';
      ExplodeSplits(line, ": ");
      JoinExplode(line, ": ");
    } else if ':' in line {
      var i :| 0 <= i < |line| && line[i] == ':';
      assert StartsAt(line, ":", i) by { assert line[i..i + 1] == [line[i]]; }
      ExplodeSplits(line, ":");
      JoinExplode(line, ":");
      ExplodePiecesFree(line, ":");
      var parts := Explode(line, ":");
      forall k, j | 0 <= k < |parts| && 0 <= j < |parts[k]|
        ensures parts[k][j] != ':'
      {
        assert !StartsAt(parts[k], ":", j);
        assert parts[k][j..j + 1] == [parts[k][j]];
      }
    }
  }

  /** The field `addField` stores: the first piece is the name, the second the
      value, and any further pieces are dropped. */
  function FieldOf(line: string): (f: Field)
    requires ':' in line
  {
    SplitRawLineShape(line);
    var parts := SplitRawLine(line);
    Field(parts[0], parts[1])
  }

  /** The three tokens `addHeader` checks and stores: the line split on single
      spaces, padded with empty strings, and cut to three. */
  function StartTokens(line: string): (t: seq<string>)
    ensures |t| == 3
  {
    (Explode(line, " ") + ["", "", ""])[..3]
  }

  /** `addHeader` on one line: the header it stores, or the bad-format error. */
  function HeaderOf(cfg: Config, line: string): Result<Header, ParseError> {
    var t := StartTokens(line);
    if cfg.checkHeader(t[0], t[1], t[2]) then Ok(MakeHeader(cfg.kind, t[0], t[1], t[2]))
    else Err(BadFormat)
  }

  /** A line that `extract` hands to the start-line handling. */
  predicate IsStartLine(cfg: Config, line: string) {
    !IsBlank(line) && !cfg.isField(line)
  }

  /** One iteration of the loop in `extract`. */
  function Step(cfg: Config, st: State, line: string): Result<State, ParseError> {
    if IsBlank(line) then Ok(st)
    else if cfg.isField(line) then Ok(st.(fields := Added(st.fields, FieldOf(line))))
    else
      match HeaderOf(cfg, line)
      case Ok(h) => Ok(st.(header := Some(h)))
      case Err(e) => Err(e)
  }

  /** The body of the loop in `extract`, as a function of the state and the line. */
  type StepFunction = (State, string) -> Result<State, ParseError>

  /** The loop of `extract` for a given body: lines in order, stopping at the
      first that fails. */
  function Fold(step: StepFunction, st: State, lines: seq<string>): Extraction
    decreases |lines|
  {
    if lines == [] then Completed(st)
    else
      match step(st, lines[0])
      case Ok(next) => Fold(step, next, lines[1..])
      case Err(e) => Aborted(st, e)
  }

  /** The loop body of `extract` for a configuration. */
  function StepOf(cfg: Config): StepFunction {
    (s: State, line: string) => Step(cfg, s, line)
  }

  /** `extract` over a list of lines, from a starting state. */
  function ExtractLines(cfg: Config, st: State, lines: seq<string>): Extraction {
    Fold(StepOf(cfg), st, lines)
  }

  /** One unfolding of the pass on a non-empty list of lines. */
  lemma ExtractFirst(cfg: Config, st: State, lines: seq<string>)
    requires lines != []
    ensures ExtractLines(cfg, st, lines)
            == if Step(cfg, st, lines[0]).Ok? then ExtractLines(cfg, Step(cfg, st, lines[0]).value, lines[1..])
               else Aborted(st, Step(cfg, st, lines[0]).error)
  {
  }

  /** How `get` renders an entry: a list is trimmed value by value and joined
      with line feeds; a single field is returned as stored. */
  function FieldText(e: Entry): string {
    match e
    case Single(f) => f.value
    case Many(fs) => Join(TrimmedValues(fs), "\n")
  }

  /** The values of `fs`, each trimmed, in order. */
  function TrimmedValues(fs: seq<Field>): seq<string> {
    seq(|fs|, k requires 0 <= k < |fs| => Trim(fs[k].value))
  }

  /** `get` on the parser: the rendered entry, or not-found. */
  function Lookup(t: Table, name: string): Result<string, FieldError> {
    if name in t then Ok(FieldText(t[name])) else Err(FieldNotFound(name))
  }

  class HttpParser {
    const config: Config
    const collection: FieldCollection
    var raw: string
    var header: Option<Header>

    ghost predicate Valid()
      reads this, collection
    {
      collection.Valid()
    }

    /** The fields and the header, as the lines see them. */
    function Current(): State
      reads this, collection
    {
      State(collection.fields, header)
    }

    /** `__construct`: the collection given, shared with the caller, or a new empty one. */
    constructor (config: Config, initial: FieldCollection?)
      requires initial != null ==> initial.Valid()
      ensures Valid() && this.config == config && raw == [] && header == None
      ensures initial != null ==> collection == initial
      ensures initial == null ==> fresh(collection) && collection.fields == map[]
    {
      var c := initial;
      if c == null {
        c := FieldCollection.FromFieldArray([]);
      }
      this.config := config;
      collection := c;
      raw := [];
      header := None;
    }

    /** `parse`: store the text and run `extract` on it. */
    method Parse(rawHttp: string) returns (r: Outcome<ParseError>)
      requires Valid()
      modifies this, collection
      ensures Valid() && raw == rawHttp
      ensures ExtractLines(config, old(Current()), Lines(rawHttp))
              == if r.Pass? then Completed(Current()) else Aborted(Current(), r.error)
    {
      r := Process(rawHttp);
    }

    method Process(rawHttp: string) returns (r: Outcome<ParseError>)
      requires Valid()
      modifies this, collection
      ensures Valid() && raw == rawHttp
      ensures ExtractLines(config, old(Current()), Lines(rawHttp))
              == if r.Pass? then Completed(Current()) else Aborted(Current(), r.error)
    {
      var self := SetHttpRaw(rawHttp);
      r := Extract();
    }

    method SetHttpRaw(rawHttp: string) returns (self: HttpParser)
      modifies this
      ensures self == this && raw == rawHttp && header == old(header)
    {
      raw := rawHttp;
      self := this;
    }

    /** `extract`: each line in order; blank lines are skipped, field lines go to
        `addField`, other lines to `addHeader`, whose failure stops the loop. */
    method Extract() returns (r: Outcome<ParseError>)
      requires Valid()
      modifies this, collection
      ensures Valid() && raw == old(raw)
      ensures ExtractLines(config, old(Current()), Lines(raw))
              == if r.Pass? then Completed(Current()) else Aborted(Current(), r.error)
    {
      var headers := Explode(raw, "\n");
      for i := 0 to |headers|
        invariant Valid() && raw == old(raw)
        invariant ExtractLines(config, old(Current()), headers)
                  == ExtractLines(config, Current(), headers[i..])
      {
        var headerLine := headers[i];
        ghost var before := Current();
        assert headers[i..][0] == headerLine && headers[i..][1..] == headers[i + 1..];
        ExtractFirst(config, before, headers[i..]);
        if Trim(headerLine) == [] {
          continue;
        }
        if config.isField(headerLine) {
          AddField(headerLine);
          assert Step(config, before, headerLine) == Ok(Current());
        } else {
          var e := AddHeader(headerLine);
          if e.Fail? {
            assert Current() == before;
            return e;
          }
          assert Step(config, before, headerLine) == Ok(Current());
        }
      }
      r := Pass;
    }

    /** `addHeader`: check the first three tokens and store the header built from them. */
    method AddHeader(headerLine: string) returns (r: Outcome<ParseError>)
      modifies this
      ensures raw == old(raw)
      ensures HeaderOf(config, headerLine).Ok? ==> r == Pass && header == Some(HeaderOf(config, headerLine).value)
      ensures HeaderOf(config, headerLine).Err? ==> r == Fail(BadFormat) && header == old(header)
    {
      var data := Explode(headerLine, " ");
      data := data + ["", "", ""];
      if !config.checkHeader(data[0], data[1], data[2]) {
        return Fail(BadFormat);
      }
      SetHttpHeader(data[0], data[1], data[2]);
      r := Pass;
    }

    /** `addField`: split the line and add the field it names to the collection. */
    method AddField(headerLine: string)
      requires Valid() && ':' in headerLine
      modifies collection
      ensures Valid() && collection.fields == Added(old(collection.fields), FieldOf(headerLine))
    {
      var parts := SplitRawLine(headerLine);
      SplitRawLineShape(headerLine);
      collection.Add(Field(parts[0], parts[1]));
    }

    /** `setHttpHeader`, as the concrete parser of `config.kind` implements it. */
    method SetHttpHeader(first: string, second: string, third: string)
      modifies this
      ensures raw == old(raw) && header == Some(MakeHeader(config.kind, first, second, third))
    {
      header := Some(MakeHeader(config.kind, first, second, third));
    }

    /** `get`: the rendered entry stored under the name, or not-found. */
    method Get(headerFieldName: string) returns (r: Result<string, FieldError>)
      ensures r == Lookup(collection.fields, headerFieldName)
    {
      var httpField := collection.Get(headerFieldName);
      match httpField {
        case Err(e) =>
          r := Err(e);
        case Ok(Many(fs)) =>
          var values := seq(|fs|, k requires 0 <= k < |fs| => Trim(fs[k].value));
          r := Ok(Join(values, "\n"));
        case Ok(Single(f)) =>
          r := Ok(f.value);
      }
    }

    /** `getHeader`: the stored header, absent before a start-line was accepted. */
    method GetHeader() returns (h: Option<Header>)
      ensures h == header
    {
      h := header;
    }
  }
}
