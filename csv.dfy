/**
 * The comma layer of the persisted format: `String.join(",", ...)` when a
 * line is written and `line.split(",")` when it is read back.  Fields are
 * not escaped, so a field holding a comma does not survive.
 */
module Csv {

  /** `String.join(",", fields)`. */
  function Join(fields: seq<string>): string
  {
    if fields == [] then ""
    else if |fields| == 1 then fields[0]
    else fields[0] + "," + Join(fields[1..])
  }

  /** The text between consecutive commas, empty pieces included. */
  function Pieces(s: string): (r: seq<string>)
    ensures |r| >= 1
  {
    if s == [] then [""]
    else
      var rest := Pieces(s[1..]);
      if s[0] == ',' then [""] + rest
      else [[s[0]] + rest[0]] + rest[1..]
  }

  /** Drops the empty strings at the end, as `split` with limit 0 does. */
  function DropTrailingEmpty(r: seq<string>): (t: seq<string>)
    ensures |t| <= |r| && t == r[..|t|]
    ensures t != [] ==> t[|t| - 1] != ""
  {
    if r == [] then []
    else if r[|r| - 1] == "" then DropTrailingEmpty(r[..|r| - 1])
    else r
  }

  /** The line without the commas at its end. */
  function StripTrailingCommas(s: string): (r: string)
    ensures |r| <= |s| && r == s[..|r|]
    ensures r == [] || r[|r| - 1] != ','
  {
    if s != [] && s[|s| - 1] == ',' then StripTrailingCommas(s[..|s| - 1]) else s
  }

  /**
   * `line.split(",")`: a line without a comma comes back whole (even when
   * empty); otherwise the pieces, with trailing empty pieces removed.  No
   * piece holds a comma, and joining the pieces again gives the line without
   * its trailing commas.
   */
  function Split(line: string): (r: seq<string>)
    ensures ',' !in line ==> r == [line]
    ensures CommaFree(r)
    ensures Join(r) == StripTrailingCommas(line)
  {
    if ',' !in line then
      assert Join([line]) == line;
      [line]
    else
      PiecesCommaFree(line);
      JoinPieces(line);
      JoinDropTrailingEmpty(Pieces(line));
      DropTrailingEmpty(Pieces(line))
  }

  /** The pieces hold no comma. */
  lemma {:induction false} PiecesCommaFree(s: string)
    ensures CommaFree(Pieces(s))
  {
    if s != [] {
      PiecesCommaFree(s[1..]);
      var rest := Pieces(s[1..]);
      if s[0] != ',' {
        assert ',' !in [s[0]] + rest[0];
        assert forall i :: 1 <= i < |rest| ==> Pieces(s)[i] == rest[i];
      }
    }
  }

  /** Cutting a line at every comma and joining the pieces gives the line. */
  lemma {:induction false} JoinPieces(s: string)
    ensures Join(Pieces(s)) == s
  {
    if s != [] {
      JoinPieces(s[1..]);
      var rest := Pieces(s[1..]);
      if s[0] == ',' {
        assert ([""] + rest)[1..] == rest;
        assert "" + "," + s[1..] == s;
      } else if |rest| == 1 {
        assert [s[0]] + s[1..] == s;
      } else {
        var first := [s[0]] + rest[0];
        assert ([first] + rest[1..])[1..] == rest[1..];
        assert Join(rest) == rest[0] + "," + Join(rest[1..]);
        assert first + "," + Join(rest[1..]) == [s[0]] + Join(rest);
        assert [s[0]] + s[1..] == s;
      }
    }
  }

  /** Joining one more field. */
  lemma {:induction false} JoinSnoc(r: seq<string>, x: string)
    ensures Join(r + [x]) == if r == [] then x else Join(r) + "," + x
  {
    if |r| > 1 {
      JoinSnoc(r[1..], x);
      assert (r + [x])[1..] == r[1..] + [x];
      assert r[0] + "," + (Join(r[1..]) + "," + x) == (r[0] + "," + Join(r[1..])) + "," + x;
    } else if |r| == 1 {
      assert (r + [x])[1..] == [x];
    }
  }

  /** Dropping the empty pieces at the end drops the commas at the end of the joined line. */
  lemma {:induction false} JoinDropTrailingEmpty(r: seq<string>)
    requires CommaFree(r)
    ensures Join(DropTrailingEmpty(r)) == StripTrailingCommas(Join(r))
  {
    if r != [] {
      var n := |r| - 1;
      assert r == r[..n] + [r[n]];
      JoinSnoc(r[..n], r[n]);
      if r[n] == "" {
        assert CommaFree(r[..n]) by {
          assert forall i :: 0 <= i < n ==> r[..n][i] == r[i];
        }
        JoinDropTrailingEmpty(r[..n]);
        if n > 0 {
          StripComma(Join(r[..n]));
        }
      } else {
        assert ',' !in r[n];
        EndsWithField(Join(r[..n]), r[n]);
      }
    }
  }

  /** A comma at the end is stripped. */
  lemma StripComma(j: string)
    ensures StripTrailingCommas(j + "," + "") == StripTrailingCommas(j)
  {
    assert (j + "," + "")[..|j|] == j;
  }

  /** A line ending in a non-empty field without commas has no comma to strip. */
  lemma EndsWithField(j: string, x: string)
    requires x != [] && ',' !in x
    ensures StripTrailingCommas(j + "," + x) == j + "," + x
    ensures StripTrailingCommas(x) == x
  {
    assert (j + "," + x)[|j + "," + x| - 1] == x[|x| - 1];
    assert x[|x| - 1] in x;
  }

  predicate CommaFree(fields: seq<string>)
  {
    forall i :: 0 <= i < |fields| ==> ',' !in fields[i]
  }

  lemma {:induction false} PiecesOfCommaFreePrefix(f: string, t: string)
    requires ',' !in f
    ensures Pieces(f + t) == [f + Pieces(t)[0]] + Pieces(t)[1..]
  {
    if f == [] {
      assert f + t == t && f + Pieces(t)[0] == Pieces(t)[0];
      assert Pieces(t) == [Pieces(t)[0]] + Pieces(t)[1..];
    } else {
      assert (f + t)[0] == f[0] && (f + t)[1..] == f[1..] + t;
      PiecesOfCommaFreePrefix(f[1..], t);
      var rest := Pieces(f[1..] + t);
      assert rest[0] == f[1..] + Pieces(t)[0] && rest[1..] == Pieces(t)[1..];
      assert [f[0]] + (f[1..] + Pieces(t)[0]) == f + Pieces(t)[0];
    }
  }

  lemma {:induction false} PiecesJoin(fields: seq<string>)
    requires fields != [] && CommaFree(fields)
    ensures Pieces(Join(fields)) == fields
  {
    if |fields| == 1 {
      PiecesOfCommaFreePrefix(fields[0], "");
      assert fields[0] + "" == fields[0];
    } else {
      var rest := Join(fields[1..]);
      PiecesJoin(fields[1..]);
      assert fields[0] + "," + rest == fields[0] + ("," + rest);
      PiecesOfCommaFreePrefix(fields[0], "," + rest);
      assert ("," + rest)[1..] == rest;
      assert Pieces("," + rest) == [""] + fields[1..];
      assert fields[0] + "" == fields[0];
    }
  }

  /**
   * Reading back a written line gives the same fields, provided no field
   * holds a comma and the last field is not empty.
   */
  lemma SplitJoin(fields: seq<string>)
    requires fields != [] && CommaFree(fields)
    requires fields[|fields| - 1] != ""
    ensures Split(Join(fields)) == fields
  {
    PiecesJoin(fields);
    if |fields| > 1 {
      assert Join(fields)[|fields[0]|] == ',';
    }
  }

  /** A comma inside a field splits it: the field count changes. */
  lemma CommaInFieldBreaksRoundTrip()
    ensures Split(Join(["Car", "C1", "a,b", "1"])) == ["Car", "C1", "a", "b", "1"]
  {
    var written := ["Car", "C1", "a,b", "1"];
    var read := ["Car", "C1", "a", "b", "1"];
    assert Join(written[3..]) == "1" == Join(read[4..]);
    assert Join(written[2..]) == "a,b,1" == Join(read[2..]);
    assert Join(written) == Join(read);
    assert CommaFree(read) by {
      assert ',' !in "Car" && ',' !in "C1" && ',' !in "a" && ',' !in "b" && ',' !in "1";
    }
    SplitJoin(read);
  }
}
