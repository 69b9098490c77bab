/** The PHP string builtins the parser relies on: `explode`, `implode` and `trim`
    with its default character set. Strings are sequences of characters. */
module Text {

  /** PHP's default `trim` set: space, tab, line feed, carriage return, NUL and vertical tab. */
  predicate IsTrimChar(c: char) {
    c == ' ' || c == '\t' || c == '\n' || c == '\r' || c == '\0' || c == '\U{B}'
  }

  /** `ltrim`: drops the leading run of trim characters. */
  function TrimLeft(s: string): string {
    if s != [] && IsTrimChar(s[0]) then TrimLeft(s[1..]) else s
  }

  /** `rtrim`: drops the trailing run of trim characters. */
  function TrimRight(s: string): string {
    if s != [] && IsTrimChar(s[|s| - 1]) then TrimRight(s[..|s| - 1]) else s
  }

  /** `trim`: the part of `s` left after both runs of trim characters are dropped. */
  function Trim(s: string): string {
    TrimRight(TrimLeft(s))
  }

  /** `ltrim` leaves a suffix, drops only trim characters, and stops at the first other one. */
  lemma {:induction false} TrimLeftShape(s: string)
    ensures |TrimLeft(s)| <= |s| && TrimLeft(s) == s[|s| - |TrimLeft(s)|..]
    ensures forall i :: 0 <= i < |s| - |TrimLeft(s)| ==> IsTrimChar(s[i])
    ensures TrimLeft(s) != [] ==> !IsTrimChar(TrimLeft(s)[0])
    decreases |s|
  {
    if s != [] && IsTrimChar(s[0]) {
      TrimLeftShape(s[1..]);
    }
  }

  /** `rtrim` leaves a prefix, drops only trim characters, and stops at the last other one. */
  lemma {:induction false} TrimRightShape(s: string)
    ensures |TrimRight(s)| <= |s| && TrimRight(s) == s[..|TrimRight(s)|]
    ensures forall i :: |TrimRight(s)| <= i < |s| ==> IsTrimChar(s[i])
    ensures TrimRight(s) != [] ==> !IsTrimChar(TrimRight(s)[|TrimRight(s)| - 1])
    decreases |s|
  {
    if s != [] && IsTrimChar(s[|s| - 1]) {
      TrimRightShape(s[..|s| - 1]);
    }
  }

  /** `trim` keeps a contiguous slice of `s`, dropping only trim characters on
      each side; what it keeps neither starts nor ends with one; it is empty
      exactly when `s` is all trim characters; it adds no character. */
  lemma TrimShape(s: string)
    ensures exists i, j :: 0 <= i <= j <= |s| && Trim(s) == s[i..j]
                           && (forall k :: 0 <= k < i ==> IsTrimChar(s[k]))
                           && (forall k :: j <= k < |s| ==> IsTrimChar(s[k]))
    ensures Trim(s) != [] ==> !IsTrimChar(Trim(s)[0]) && !IsTrimChar(Trim(s)[|Trim(s)| - 1])
    ensures Trim(s) == [] <==> forall k :: 0 <= k < |s| ==> IsTrimChar(s[k])
    ensures forall c :: c in Trim(s) ==> c in s
  {
    var left := TrimLeft(s);
    TrimLeftShape(s);
    TrimRightShape(left);
    var r := TrimRight(left);
    var i := |s| - |left|;
    assert r == s[i..i + |r|];
    assert forall k :: i + |r| <= k < |s| ==> s[k] == left[k - i];
  }

  /** `sep` occurs in `s` starting at index `i`. */
  predicate StartsAt(s: string, sep: string, i: nat) {
    i + |sep| <= |s| && s[i..i + |sep|] == sep
  }

  /** `strpos($s, $sep) !== false`. */
  predicate Contains(s: string, sep: string) {
    exists i | 0 <= i <= |s| :: StartsAt(s, sep, i)
  }

  /** `explode($sep, $s)`: the pieces between the occurrences of `sep`, found
      left to right without overlap. There is always at least one piece. */
  function Explode(s: string, sep: string): (r: seq<string>)
    requires sep != []
    ensures |r| >= 1
    decreases |s|
  {
    if |s| < |sep| then [s]
    else if s[..|sep|] == sep then [[]] + Explode(s[|sep|..], sep)
    else
      var rest := Explode(s[1..], sep);
      [[s[0]] + rest[0]] + rest[1..]
  }

  /** `implode($sep, $parts)`. */
  function Join(parts: seq<string>, sep: string): string
  {
    if |parts| == 0 then []
    else if |parts| == 1 then parts[0]
    else parts[0] + sep + Join(parts[1..], sep)
  }

  /** Joining a piece in front of further pieces puts a separator between them. */
  lemma JoinPrepend(p: string, parts: seq<string>, sep: string)
    requires parts != []
    ensures Join([p] + parts, sep) == p + sep + Join(parts, sep)
  {
    assert ([p] + parts)[0] == p && ([p] + parts)[1..] == parts;
  }

  /** A character in front of the first piece ends up in front of the join. */
  lemma JoinHeadChar(c: char, x: string, parts: seq<string>, sep: string)
    ensures Join([[c] + x] + parts, sep) == [c] + Join([x] + parts, sep)
  {
    if parts != [] {
      JoinPrepend([c] + x, parts, sep);
      JoinPrepend(x, parts, sep);
    }
  }

  /** Joining the pieces with the separator gives back the exploded string. */
  lemma {:induction false} JoinExplode(s: string, sep: string)
    requires sep != []
    ensures Join(Explode(s, sep), sep) == s
    decreases |s|
  {
    if |s| < |sep| {
    } else if s[..|sep|] == sep {
      var tail := Explode(s[|sep|..], sep);
      JoinExplode(s[|sep|..], sep);
      assert Explode(s, sep) == [[]] + tail;
      JoinPrepend([], tail, sep);
      assert s == s[..|sep|] + s[|sep|..];
    } else {
      var rest := Explode(s[1..], sep);
      JoinExplode(s[1..], sep);
      assert Explode(s, sep) == [[s[0]] + rest[0]] + rest[1..];
      JoinHeadChar(s[0], rest[0], rest[1..], sep);
      assert rest == [rest[0]] + rest[1..];
      assert s == [s[0]] + s[1..];
    }
  }

  /** A string splits into more than one piece exactly when it contains the separator. */
  lemma {:induction false} ExplodeSplits(s: string, sep: string)
    requires sep != []
    ensures |Explode(s, sep)| == 1 <==> !Contains(s, sep)
    decreases |s|
  {
    if |s| < |sep| {
    } else if s[..|sep|] == sep {
      assert StartsAt(s, sep, 0);
    } else {
      ExplodeSplits(s[1..], sep);
      if Contains(s, sep) {
        var i :| 0 <= i <= |s| && StartsAt(s, sep, i);
        assert i != 0;
        assert s[1..][i - 1..i - 1 + |sep|] == s[i..i + |sep|];
        assert StartsAt(s[1..], sep, i - 1);
      }
      if Contains(s[1..], sep) {
        var i :| 0 <= i <= |s[1..]| && StartsAt(s[1..], sep, i);
        assert s[i + 1..i + 1 + |sep|] == s[1..][i..i + |sep|];
        assert StartsAt(s, sep, i + 1);
      }
    }
  }

  /** A string without the separator is a single piece. */
  lemma ExplodeWithout(s: string, sep: string)
    requires sep != [] && !Contains(s, sep)
    ensures Explode(s, sep) == [s]
  {
    ExplodeSplits(s, sep);
    JoinExplode(s, sep);
  }

  /** When no occurrence of `sep` starts inside `p`, the first piece of
      `p + sep + rest` is `p` and the others are the pieces of `rest`. */
  lemma {:induction false} ExplodeAfterPiece(p: string, sep: string, rest: string)
    requires sep != []
    requires forall i :: 0 <= i < |p| ==> !StartsAt(p + sep + rest, sep, i)
    ensures Explode(p + sep + rest, sep) == [p] + Explode(rest, sep)
    decreases |p|
  {
    var s := p + sep + rest;
    if p == [] {
      assert s[..|sep|] == sep && s[|sep|..] == rest;
    } else {
      assert !StartsAt(s, sep, 0);
      var p' := p[1..];
      assert s[1..] == p' + sep + rest;
      forall i | 0 <= i < |p'|
        ensures !StartsAt(p' + sep + rest, sep, i)
      {
        assert !StartsAt(s, sep, i + 1);
        assert s[i + 1..i + 1 + |sep|] == s[1..][i..i + |sep|];
      }
      ExplodeAfterPiece(p', sep, rest);
      assert [s[0]] + p' == p;
    }
  }

  /** Exploding on a one-character separator undoes joining pieces that do not contain it. */
  lemma {:induction false} ExplodeJoin(parts: seq<string>, sep: string)
    requires |sep| == 1 && |parts| >= 1
    requires forall k :: 0 <= k < |parts| ==> sep[0] !in parts[k]
    ensures Explode(Join(parts, sep), sep) == parts
  {
    if |parts| == 1 {
      NoCharNoSep(parts[0], sep);
      ExplodeWithout(parts[0], sep);
    } else {
      var rest := Join(parts[1..], sep);
      forall i | 0 <= i < |parts[0]|
        ensures !StartsAt(parts[0] + sep + rest, sep, i)
      {
        assert (parts[0] + sep + rest)[i] == parts[0][i];
      }
      ExplodeAfterPiece(parts[0], sep, rest);
      ExplodeJoin(parts[1..], sep);
    }
  }

  /** A one-character separator cannot occur in a string without that character. */
  lemma NoCharNoSep(s: string, sep: string)
    requires |sep| == 1 && sep[0] !in s
    ensures !Contains(s, sep)
  {
    MissingCharNoSep(s, sep, sep[0]);
  }

  /** A separator cannot occur in a string that lacks one of its characters. */
  lemma MissingCharNoSep(s: string, sep: string, c: char)
    requires c in sep && c !in s
    ensures !Contains(s, sep)
  {
    forall i | 0 <= i <= |s|
      ensures !StartsAt(s, sep, i)
    {
      if i + |sep| <= |s| {
        var k :| 0 <= k < |sep| && sep[k] == c;
        assert s[i..i + |sep|][k] == s[i + k];
      }
    }
  }

  /** A character of a piece occurs in the joined string. */
  lemma {:induction false} JoinKeepsChars(parts: seq<string>, sep: string, k: nat, c: char)
    requires k < |parts| && c in parts[k]
    ensures c in Join(parts, sep)
  {
    if |parts| > 1 {
      if k == 0 {
        assert Join(parts, sep) == parts[0] + (sep + Join(parts[1..], sep));
      } else {
        JoinKeepsChars(parts[1..], sep, k - 1, c);
        assert Join(parts, sep) == (parts[0] + sep) + Join(parts[1..], sep);
      }
    }
  }

  /** Every character of a joined string comes from a piece or the separator. */
  lemma {:induction false} JoinChars(parts: seq<string>, sep: string, c: char)
    requires c in Join(parts, sep)
    ensures c in sep || exists k :: 0 <= k < |parts| && c in parts[k]
  {
    if |parts| > 1 {
      if c !in parts[0] && c !in sep {
        JoinChars(parts[1..], sep, c);
        var k :| 0 <= k < |parts[1..]| && c in parts[1..][k];
        assert c in parts[k + 1];
      }
    }
  }

  /** A string that starts and ends with characters outside the trim set is its own trim. */
  lemma TrimUnchanged(s: string)
    requires s != [] && !IsTrimChar(s[0]) && !IsTrimChar(s[|s| - 1])
    ensures Trim(s) == s
  {
    assert TrimLeft(s) == s;
    assert TrimRight(s) == s;
  }

  /** No piece of an explode contains the separator. */
  lemma {:induction false} ExplodePiecesFree(s: string, sep: string)
    requires sep != []
    ensures forall k :: 0 <= k < |Explode(s, sep)| ==> !Contains(Explode(s, sep)[k], sep)
    decreases |s|
  {
    var r := Explode(s, sep);
    if |s| < |sep| {
    } else if s[..|sep|] == sep {
      ExplodePiecesFree(s[|sep|..], sep);
      assert r[1..] == Explode(s[|sep|..], sep);
    } else {
      var rest := Explode(s[1..], sep);
      ExplodePiecesFree(s[1..], sep);
      FirstPieceIsPrefix(s[1..], sep);
      assert r[1..] == rest[1..];
      forall i | 0 <= i <= |r[0]|
        ensures !StartsAt(r[0], sep, i)
      {
        if i == 0 {
          if |sep| <= |r[0]| {
            assert r[0][..|sep|] == s[..|sep|];
          }
        } else if i + |sep| <= |r[0]| {
          assert rest[0][i - 1..i - 1 + |sep|] == r[0][i..i + |sep|];
          assert !StartsAt(rest[0], sep, i - 1);
        }
      }
    }
  }

  /** The first piece of an explode is a prefix of the exploded string. */
  lemma {:induction false} FirstPieceIsPrefix(s: string, sep: string)
    requires sep != []
    ensures Explode(s, sep)[0] <= s
    decreases |s|
  {
    if |s| >= |sep| && s[..|sep|] != sep {
      FirstPieceIsPrefix(s[1..], sep);
    }
  }

  /** Every character of a piece is a character of the exploded string. */
  lemma PieceChars(s: string, sep: string, k: nat, c: char)
    requires sep != [] && k < |Explode(s, sep)| && c in Explode(s, sep)[k]
    ensures c in s
  {
    JoinExplode(s, sep);
    JoinKeepsChars(Explode(s, sep), sep, k, c);
  }
}
