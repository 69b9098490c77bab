/** What the collection holds after a pass: when every stored value was a
    single line before it, every one still is, so `get` on a list entry renders
    one line per field and splitting it on line feeds recovers the trimmed
    values. */
module ParseOutcomes {
  import opened Results
  import opened Text
  import opened Fields
  import opened Parser
  import opened ParserProperties
  import opened LineShapes

  /** No stored value contains a line feed. */
  predicate SingleLineValues(t: Table) {
    forall key :: key in t ==> forall k :: 0 <= k < |Values(t[key])| ==> '\n' !in Values(t[key])[k].value
  }

  /** The value `addField` stores is made of characters of the line. */
  lemma FieldOfChars(line: string, c: char)
    requires ':' in line && c in FieldOf(line).value
    ensures c in line
  {
    SplitRawLineShape(line);
    if Contains(line, ": ") {
      PieceChars(line, ": ", 1, c);
    } else {
      PieceChars(line, ":", 1, c);
    }
  }

  /** Each field of a run of lines is the field of one of its field lines: a
      non-blank line the field test accepts. */
  lemma {:induction false} FieldsInFromLines(cfg: Config, lines: seq<string>, f: Field)
    requires f in FieldsIn(cfg, lines)
    ensures exists k :: && 0 <= k < |lines| && !IsBlank(lines[k]) && cfg.isField(lines[k])
                        && f == FieldOf(lines[k])
    decreases |lines|
  {
    var line := lines[0];
    var here := LineFields(cfg)(line);
    assert FieldsIn(cfg, lines) == here + FieldsIn(cfg, lines[1..]);
    if f in here {
      assert !IsBlank(lines[0]) && cfg.isField(lines[0]) && f == FieldOf(lines[0]);
    } else {
      FieldsInFromLines(cfg, lines[1..], f);
      var k :| && 0 <= k < |lines[1..]| && !IsBlank(lines[1..][k]) && cfg.isField(lines[1..][k])
               && f == FieldOf(lines[1..][k]);
      assert lines[1..][k] == lines[k + 1];
    }
  }

  /** Lines without line feeds describe fields without line feeds. */
  lemma FieldsOfSingleLines(cfg: Config, lines: seq<string>)
    requires forall k :: 0 <= k < |lines| ==> '\n' !in lines[k]
    ensures forall f :: f in FieldsIn(cfg, lines) ==> '\n' !in f.value
  {
    forall f | f in FieldsIn(cfg, lines)
      ensures '\n' !in f.value
    {
      FieldsInFromLines(cfg, lines, f);
      var k :| 0 <= k < |lines| && !IsBlank(lines[k]) && cfg.isField(lines[k]) && f == FieldOf(lines[k]);
      if '\n' in f.value {
        FieldOfChars(lines[k], '\n');
      }
    }
  }

  /** Adding fields without line feeds keeps every stored value on a single line. */
  lemma AddAllKeepsSingleLine(t: Table, fs: seq<Field>)
    requires SingleLineValues(t)
    requires forall f :: f in fs ==> '\n' !in f.value
    ensures SingleLineValues(AddAll(t, fs))
  {
    var after := AddAll(t, fs);
    forall key, k | key in after && 0 <= k < |Values(after[key])|
      ensures '\n' !in Values(after[key])[k].value
    {
      AddAllValues(t, fs, key);
      var before := ValuesOf(t, key);
      assert Values(after[key]) == before + Named(fs, key);
      if k < |before| {
        assert Values(after[key])[k] == Values(t[key])[k];
      } else {
        assert Values(after[key])[k] == Named(fs, key)[k - |before|];
      }
    }
  }

  /** A pass over raw text keeps every stored value on a single line if all of
      them were before. */
  lemma ParseKeepsSingleLine(cfg: Config, st: State, raw: string)
    requires SingleLineValues(st.fields)
    ensures SingleLineValues(ExtractLines(cfg, st, Lines(raw)).state.fields)
  {
    var lines := Lines(raw);
    var pre := lines[..FirstRejected(cfg, lines)];
    ExtractAddsFieldsInOrder(cfg, st, lines);
    forall k | 0 <= k < |pre|
      ensures '\n' !in pre[k]
    {
      LinesHaveNoLineFeed(raw, k);
    }
    FieldsOfSingleLines(cfg, pre);
    AddAllKeepsSingleLine(st.fields, FieldsIn(cfg, pre));
  }

  /** After parsing into a collection of single-line values, `get` on a list
      entry renders one line per stored field, in insertion order. */
  lemma ParsedListRendersLines(cfg: Config, st: State, raw: string, name: string)
    requires SingleLineValues(st.fields)
    ensures var after := ExtractLines(cfg, st, Lines(raw)).state.fields;
            name in after && after[name].Many? && after[name].fields != [] ==>
              && Lookup(after, name).Ok?
              && Explode(Lookup(after, name).value, "\n") == TrimmedValues(after[name].fields)
  {
    var after := ExtractLines(cfg, st, Lines(raw)).state.fields;
    ParseKeepsSingleLine(cfg, st, raw);
    if name in after && after[name].Many? && after[name].fields != [] {
      var fs := after[name].fields;
      assert Values(after[name]) == fs;
      ListTextRoundTrip(fs);
    }
  }
}
