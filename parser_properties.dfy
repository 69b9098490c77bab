/** What a pass of `extract` over the lines does, stated independently of the
    loop: blank lines are skipped, lines are processed once each and in order,
    the first rejected start-line stops the pass, fields accumulate, and the
    last accepted start-line determines the header. */
module ParserProperties {
  import opened Results
  import opened Text
  import opened Fields
  import opened Headers
  import opened Parser

  /** The lines that are not blank, in order. */
  function NonBlank(lines: seq<string>): seq<string>
  {
    if lines == [] then []
    else (if IsBlank(lines[0]) then [] else [lines[0]]) + NonBlank(lines[1..])
  }

  /** A start-line that the start-line check rejects. */
  predicate Rejected(cfg: Config, line: string) {
    IsStartLine(cfg, line) && HeaderOf(cfg, line).Err?
  }

  function RejectedOf(cfg: Config): string -> bool {
    (line: string) => Rejected(cfg, line)
  }

  /** The index of the first line satisfying `p`, or the number of lines. */
  function FirstWhere(p: string -> bool, lines: seq<string>): (j: nat)
    ensures j <= |lines|
  {
    if lines == [] then 0
    else if p(lines[0]) then 0
    else 1 + FirstWhere(p, lines[1..])
  }

  /** `FirstWhere` is what its name says: no line before it satisfies `p`, and
      the line at it does. */
  lemma {:induction false} FirstWhereIsFirst(p: string -> bool, lines: seq<string>)
    ensures forall k :: 0 <= k < FirstWhere(p, lines) ==> !p(lines[k])
    ensures FirstWhere(p, lines) < |lines| ==> p(lines[FirstWhere(p, lines)])
  {
    if lines != [] && !p(lines[0]) {
      FirstWhereIsFirst(p, lines[1..]);
      forall k | 1 <= k < FirstWhere(p, lines)
        ensures !p(lines[k])
      {
        assert lines[k] == lines[1..][k - 1];
      }
    }
  }

  /** The index of the first rejected start-line, or the number of lines. */
  function FirstRejected(cfg: Config, lines: seq<string>): (j: nat)
    ensures j <= |lines|
  {
    FirstWhere(RejectedOf(cfg), lines)
  }

  /** A loop whose body fails, with the bad-format error, exactly on the lines
      satisfying `p` runs the lines before the first such line and stops there. */
  lemma {:induction false} FoldStopsAtFirst(step: StepFunction, p: string -> bool, st: State, lines: seq<string>)
    requires forall s: State, line: string :: step(s, line).Err? <==> p(line)
    requires forall s: State, line: string :: step(s, line).Err? ==> step(s, line).error == BadFormat
    ensures var j := FirstWhere(p, lines);
            var before := Fold(step, st, lines[..j]);
            && before.Completed?
            && Fold(step, st, lines) == if j == |lines| then before else Aborted(before.state, BadFormat)
    decreases |lines|
  {
    var j := FirstWhere(p, lines);
    if lines == [] {
    } else if p(lines[0]) {
      assert j == 0 && lines[..0] == [];
    } else {
      var rest := lines[1..];
      var next := step(st, lines[0]).value;
      FoldStopsAtFirst(step, p, next, rest);
      var pre := lines[..j];
      assert pre[0] == lines[0] && pre[1..] == rest[..j - 1];
    }
  }

  /** The fields one line describes: its field when it is a field line. */
  function LineFields(cfg: Config): string -> seq<Field> {
    (line: string) => if !IsBlank(line) && cfg.isField(line) then [FieldOf(line)] else []
  }

  /** The fields `f` gives the lines, concatenated in order. */
  function Gather(f: string -> seq<Field>, lines: seq<string>): seq<Field> {
    if lines == [] then [] else f(lines[0]) + Gather(f, lines[1..])
  }

  /** The fields the field lines among `lines` describe, in order. */
  function FieldsIn(cfg: Config, lines: seq<string>): seq<Field> {
    Gather(LineFields(cfg), lines)
  }

  /** The last start-line among `lines`, if there is one. */
  function LastStartLine(cfg: Config, lines: seq<string>): (r: Option<string>)
    ensures r.Some? ==> r.value in lines && IsStartLine(cfg, r.value)
  {
    if lines == [] then None
    else
      match LastStartLine(cfg, lines[1..])
      case Some(l) => Some(l)
      case None => if IsStartLine(cfg, lines[0]) then Some(lines[0]) else None
  }

  /** `LastStartLine` is what its name says: there is none exactly when no line
      is a start-line, and otherwise it is a start-line after which no line is one. */
  lemma {:induction false} LastStartLineIsLast(cfg: Config, lines: seq<string>)
    ensures LastStartLine(cfg, lines).None? <==> forall k :: 0 <= k < |lines| ==> !IsStartLine(cfg, lines[k])
    ensures LastStartLine(cfg, lines).Some? ==>
              exists k :: && 0 <= k < |lines| && lines[k] == LastStartLine(cfg, lines).value
                          && IsStartLine(cfg, lines[k])
                          && forall m :: k < m < |lines| ==> !IsStartLine(cfg, lines[m])
    decreases |lines|
  {
    if lines != [] {
      var rest := lines[1..];
      LastStartLineIsLast(cfg, rest);
      assert forall m :: 1 <= m < |lines| ==> lines[m] == rest[m - 1];
      match LastStartLine(cfg, rest)
      case Some(l) =>
        var k :| && 0 <= k < |rest| && rest[k] == l && IsStartLine(cfg, rest[k])
                 && forall m :: k < m < |rest| ==> !IsStartLine(cfg, rest[m]);
        assert lines[k + 1] == l;
      case None =>
        if IsStartLine(cfg, lines[0]) {
          assert lines[0] == LastStartLine(cfg, lines).value;
        }
    }
  }

  /** A line other than a rejected start-line always steps. */
  lemma AcceptedSteps(cfg: Config, st: State, line: string)
    requires !Rejected(cfg, line)
    ensures Step(cfg, st, line).Ok?
  {
  }

  /** A line that steps to `next` hands the rest of the pass to `next`. */
  lemma ExtractCons(cfg: Config, st: State, line: string, rest: seq<string>, next: State)
    requires Step(cfg, st, line) == Ok(next)
    ensures ExtractLines(cfg, st, [line] + rest) == ExtractLines(cfg, next, rest)
  {
    assert ([line] + rest)[0] == line && ([line] + rest)[1..] == rest;
  }

  /** Blank lines change nothing: the pass over all lines is the pass over the
      non-blank ones. */
  lemma {:induction false} ExtractSkipsBlankLines(cfg: Config, st: State, lines: seq<string>)
    ensures ExtractLines(cfg, st, lines) == ExtractLines(cfg, st, NonBlank(lines))
    decreases |lines|
  {
    if lines != [] {
      var rest := NonBlank(lines[1..]);
      if IsBlank(lines[0]) {
        assert NonBlank(lines) == [] + rest == rest;
        SkipBlank(cfg, st, lines);
        ExtractSkipsBlankLines(cfg, st, lines[1..]);
      } else {
        var filtered := [lines[0]] + rest;
        assert NonBlank(lines) == filtered;
        assert filtered[0] == lines[0] && filtered[1..] == rest;
        var step := Step(cfg, st, lines[0]);
        ExtractFirst(cfg, st, lines);
        ExtractFirst(cfg, st, filtered);
        if step.Ok? {
          ExtractSkipsBlankLines(cfg, step.value, lines[1..]);
        }
      }
    }
  }

  /** A blank first line is skipped. */
  lemma SkipBlank(cfg: Config, st: State, lines: seq<string>)
    requires lines != [] && IsBlank(lines[0])
    ensures ExtractLines(cfg, st, lines) == ExtractLines(cfg, st, lines[1..])
  {
    ExtractFirst(cfg, st, lines);
  }

  /** Lines are processed in order: the pass over `a + b` is the pass over `a`
      followed, when that completes, by the pass over `b` from where it ended. */
  lemma {:induction false} ExtractAppend(cfg: Config, st: State, a: seq<string>, b: seq<string>)
    ensures ExtractLines(cfg, st, a + b)
            == match ExtractLines(cfg, st, a)
               case Completed(mid) => ExtractLines(cfg, mid, b)
               case Aborted(_, _) => ExtractLines(cfg, st, a)
    decreases |a|
  {
    if a == [] {
      assert a + b == b;
    } else {
      assert (a + b)[0] == a[0] && (a + b)[1..] == a[1..] + b;
      match Step(cfg, st, a[0])
      case Ok(next) =>
        ExtractAppend(cfg, next, a[1..], b);
      case Err(_) =>
    }
  }

  /** The pass stops exactly at the first rejected start-line: it is the pass over
      the lines before that one, which completes, and it is aborted with the
      bad-format error exactly when such a line exists. */
  lemma ExtractStopsAtRejected(cfg: Config, st: State, lines: seq<string>)
    ensures var j := FirstRejected(cfg, lines);
            var before := ExtractLines(cfg, st, lines[..j]);
            && before.Completed?
            && ExtractLines(cfg, st, lines)
               == if j == |lines| then before else Aborted(before.state, BadFormat)
  {
    FoldStopsAtFirst(StepOf(cfg), RejectedOf(cfg), st, lines);
  }

  /** A loop whose body fails exactly on the lines satisfying `p`, and otherwise
      adds the fields `f` gives the line, adds the fields of the lines before
      the first line satisfying `p`, in order. */
  lemma {:induction false} FoldAddsInOrder(step: StepFunction, p: string -> bool, f: string -> seq<Field>,
                                           st: State, lines: seq<string>)
    requires forall s: State, line: string :: step(s, line).Err? <==> p(line)
    requires forall s: State, line: string :: step(s, line).Ok? ==> step(s, line).value.fields == AddAll(s.fields, f(line))
    ensures Fold(step, st, lines).state.fields == AddAll(st.fields, Gather(f, lines[..FirstWhere(p, lines)]))
    decreases |lines|
  {
    var j := FirstWhere(p, lines);
    if lines == [] {
    } else if p(lines[0]) {
      assert j == 0 && lines[..0] == [];
    } else {
      var rest := lines[1..];
      var next := step(st, lines[0]).value;
      FoldAddsInOrder(step, p, f, next, rest);
      var pre := lines[..j];
      assert pre[0] == lines[0] && pre[1..] == rest[..j - 1];
      AddAllAppend(st.fields, f(lines[0]), Gather(f, rest[..j - 1]));
    }
  }

  /** Field lines before the first rejected start-line reach the collection
      once each, in order. */
  lemma ExtractAddsFieldsInOrder(cfg: Config, st: State, lines: seq<string>)
    ensures ExtractLines(cfg, st, lines).state.fields
            == AddAll(st.fields, FieldsIn(cfg, lines[..FirstRejected(cfg, lines)]))
  {
    forall s: State, line: string | StepOf(cfg)(s, line).Ok?
      ensures StepOf(cfg)(s, line).value.fields == AddAll(s.fields, LineFields(cfg)(line))
    {
      StepFields(cfg, s, line);
    }
    FoldAddsInOrder(StepOf(cfg), RejectedOf(cfg), LineFields(cfg), st, lines);
  }

  /** A line that steps adds the fields it describes. */
  lemma StepFields(cfg: Config, st: State, line: string)
    requires Step(cfg, st, line).Ok?
    ensures Step(cfg, st, line).value.fields == AddAll(st.fields, LineFields(cfg)(line))
  {
    if !IsBlank(line) && cfg.isField(line) {
      FieldLineAdds(cfg, st, line);
    } else {
      OtherLineKeepsFields(cfg, st, line);
      assert LineFields(cfg)(line) == [];
    }
  }

  /** A blank line or a start-line leaves the fields alone. */
  lemma OtherLineKeepsFields(cfg: Config, st: State, line: string)
    requires IsBlank(line) || !cfg.isField(line)
    requires Step(cfg, st, line).Ok?
    ensures Step(cfg, st, line).value.fields == st.fields
  {
  }

  /** A field line adds its field. */
  lemma FieldLineAdds(cfg: Config, st: State, line: string)
    requires !IsBlank(line) && cfg.isField(line)
    ensures Step(cfg, st, line) == Ok(st.(fields := AddAll(st.fields, [FieldOf(line)])))
  {
    var f := FieldOf(line);
    assert [f][0] == f && [f][1..] == [];
  }

  /** When the pass completes, the header is the one built from the last
      start-line, or the earlier header when there is no start-line. */
  lemma {:induction false} ExtractHeaderFromLastStartLine(cfg: Config, st: State, lines: seq<string>)
    requires ExtractLines(cfg, st, lines).Completed?
    ensures match LastStartLine(cfg, lines)
            case None => ExtractLines(cfg, st, lines).state.header == st.header
            case Some(l) => HeaderOf(cfg, l).Ok?
                            && ExtractLines(cfg, st, lines).state.header == Some(HeaderOf(cfg, l).value)
    decreases |lines|
  {
    if lines != [] {
      var next := Step(cfg, st, lines[0]).value;
      ExtractHeaderFromLastStartLine(cfg, next, lines[1..]);
    }
  }

  /** Parsing never drops a value: what was stored under a name before the pass
      is a prefix of what is stored after it, and the rest are the new fields
      of that name in order. This is why a second `parse` accumulates. */
  lemma ExtractKeepsEarlierValues(cfg: Config, st: State, lines: seq<string>, key: string)
    ensures var after := ExtractLines(cfg, st, lines).state.fields;
            ValuesOf(after, key)
            == ValuesOf(st.fields, key) + Named(FieldsIn(cfg, lines[..FirstRejected(cfg, lines)]), key)
  {
    ExtractAddsFieldsInOrder(cfg, st, lines);
    AddAllValues(st.fields, FieldsIn(cfg, lines[..FirstRejected(cfg, lines)]), key);
  }
}
