/** How single lines are cut: the raw text into lines, a start-line into its
    three tokens, a field line into name and value, and how `get` renders a
    list entry. Each is stated for lines built from known pieces. */
module LineShapes {
  import opened Results
  import opened Text
  import opened Fields
  import opened Headers
  import opened Parser

  /** Splitting on line feed undoes joining lines that have none: nothing else,
      in particular no carriage return, is removed from a line. */
  lemma LinesOfJoin(lines: seq<string>)
    requires |lines| >= 1
    requires forall k :: 0 <= k < |lines| ==> '\n' !in lines[k]
    ensures Lines(Join(lines, "\n")) == lines
  {
    ExplodeJoin(lines, "\n");
  }

  /** No line of the raw text contains a line feed. */
  lemma LinesHaveNoLineFeed(raw: string, k: nat)
    requires k < |Lines(raw)|
    ensures '\n' !in Lines(raw)[k]
  {
    ExplodePiecesFree(raw, "\n");
    if '\n' in Lines(raw)[k] {
      var j :| 0 <= j < |Lines(raw)[k]| && Lines(raw)[k][j] == '\n';
      assert StartsAt(Lines(raw)[k], "\n", j) by {
        assert Lines(raw)[k][j..j + 1] == ['\n'];
      }
      assert false;
    }
  }

  /** A start-line made of space-free tokens hands the check, and the header,
      its first three tokens, padded with empty strings when there are fewer. */
  lemma StartTokensOf(tokens: seq<string>)
    requires |tokens| >= 1
    requires forall k :: 0 <= k < |tokens| ==> ' ' !in tokens[k]
    ensures StartTokens(Join(tokens, " ")) == (tokens + ["", "", ""])[..3]
  {
    ExplodeJoin(tokens, " ");
  }

  /** The header a start-line of space-free tokens yields: the first three
      tokens when they pass the check, the bad-format error otherwise. */
  lemma HeaderOfTokens(cfg: Config, tokens: seq<string>)
    requires |tokens| >= 1
    requires forall k :: 0 <= k < |tokens| ==> ' ' !in tokens[k]
    ensures var t := (tokens + ["", "", ""])[..3];
            HeaderOf(cfg, Join(tokens, " "))
            == if cfg.checkHeader(t[0], t[1], t[2]) then Ok(MakeHeader(cfg.kind, t[0], t[1], t[2]))
               else Err(BadFormat)
  {
    StartTokensOf(tokens);
  }

  /** `name: value` with a colon-free name and a value without ": " stores
      exactly that name and value; the value is not trimmed. */
  lemma FieldOfColonSpace(name: string, value: string)
    requires ':' !in name && !Contains(value, ": ")
    ensures ':' in name + ": " + value
    ensures FieldOf(name + ": " + value) == Field(name, value)
  {
    var line := name + ": " + value;
    assert line[|name|] == ':';
    NameHasNoSeparator(name, value);
    ExplodeAfterPiece(name, ": ", value);
    ExplodeWithout(value, ": ");
    assert StartsAt(line, ": ", |name|) by { assert line[|name|..|name| + 2] == ": "; }
  }

  /** No ": " starts inside a colon-free name. */
  lemma NameHasNoSeparator(name: string, rest: string)
    requires ':' !in name
    ensures forall i :: 0 <= i < |name| ==> !StartsAt(name + ": " + rest, ": ", i)
  {
    forall i | 0 <= i < |name|
      ensures !StartsAt(name + ": " + rest, ": ", i)
    {
      var line := name + ": " + rest;
      assert line[i] == name[i] != ':';
      assert i + 2 <= |line| ==> line[i..i + 2][0] == line[i];
    }
  }

  /** No ": " starts inside a piece that does not contain one, even when the
      piece ends with a colon. */
  lemma PieceHasNoSeparator(piece: string, rest: string)
    requires !Contains(piece, ": ")
    ensures forall i :: 0 <= i < |piece| ==> !StartsAt(piece + ": " + rest, ": ", i)
  {
    forall i | 0 <= i < |piece|
      ensures !StartsAt(piece + ": " + rest, ": ", i)
    {
      var line := piece + ": " + rest;
      if i + 2 <= |piece| {
        assert line[i..i + 2] == piece[i..i + 2];
        assert !StartsAt(piece, ": ", i);
      } else {
        assert line[i + 1] == ':';
        assert line[i..i + 2][1] == line[i + 1];
      }
    }
  }

  /** Only the piece between the first and the second ": " is stored: what
      follows the second separator is dropped. The value may hold colons, as
      long as none of them is followed by a space. */
  lemma FieldOfDropsLaterPieces(name: string, value: string, more: string)
    requires ':' !in name && !Contains(value, ": ")
    ensures ':' in name + ": " + value + ": " + more
    ensures FieldOf(name + ": " + value + ": " + more) == Field(name, value)
  {
    var rest := value + ": " + more;
    assert name + ": " + value + ": " + more == name + ": " + rest;
    var line := name + ": " + rest;
    assert line[|name|] == ':';
    NameHasNoSeparator(name, rest);
    ExplodeAfterPiece(name, ": ", rest);
    PieceHasNoSeparator(value, more);
    ExplodeAfterPiece(value, ": ", more);
    assert StartsAt(line, ": ", |name|) by { assert line[|name|..|name| + 2] == ": "; }
  }

  /** Without ": " anywhere, the line is cut at every colon and the first two
      pieces are the name and the value. */
  lemma FieldOfColonOnly(pieces: seq<string>)
    requires |pieces| >= 2
    requires forall k :: 0 <= k < |pieces| ==> ':' !in pieces[k]
    requires !Contains(Join(pieces, ":"), ": ")
    ensures ':' in Join(pieces, ":")
    ensures FieldOf(Join(pieces, ":")) == Field(pieces[0], pieces[1])
  {
    ExplodeJoin(pieces, ":");
    SplitRawLineShape(Join(pieces, ":"));
    if ':' !in Join(pieces, ":") {
      NoCharNoSep(Join(pieces, ":"), ":");
      ExplodeWithout(Join(pieces, ":"), ":");
    }
  }

  /** `get` on a list entry is a line per stored field: when no value holds a
      line feed, splitting what `get` renders on line feeds gives back the
      trimmed values in insertion order. */
  lemma ListTextRoundTrip(fs: seq<Field>)
    requires |fs| >= 1
    requires forall k :: 0 <= k < |fs| ==> '\n' !in fs[k].value
    ensures Explode(FieldText(Many(fs)), "\n") == TrimmedValues(fs)
  {
    var values := TrimmedValues(fs);
    forall k | 0 <= k < |values|
      ensures '\n' !in values[k]
    {
      TrimShape(fs[k].value);
    }
    ExplodeJoin(values, "\n");
  }
}
