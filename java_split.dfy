/** Java's `String.split(",")` with the default limit 0: the string is cut at
    every comma, trailing empty strings are removed, and a string with no comma
    at all comes back as the one-element array holding itself. */
module JavaSplit {

  /** Every piece between commas, none removed. */
  function Pieces(s: string): (r: seq<string>)
    ensures |r| >= 1
    decreases |s|
  {
    if s == [] then [""]
    else if s[0] == ',' then [""] + Pieces(s[1..])
    else
      var rest := Pieces(s[1..]);
      [[s[0]] + rest[0]] + rest[1..]
  }

  /** The pieces put back together with a comma between neighbours. */
  function Join(ps: seq<string>): string
    requires |ps| >= 1
    decreases |ps|
  {
    if |ps| == 1 then ps[0] else ps[0] + "," + Join(ps[1..])
  }

  predicate CommaFree(p: string)
  {
    ',' !in p
  }

  function DropTrailingEmpty(ps: seq<string>): (r: seq<string>)
    ensures |r| <= |ps| && r == ps[..|r|]
    ensures forall i :: |r| <= i < |ps| ==> ps[i] == ""
    ensures r == [] || r[|r| - 1] != ""
    decreases |ps|
  {
    if ps != [] && ps[|ps| - 1] == "" then DropTrailingEmpty(ps[..|ps| - 1]) else ps
  }

  /** `s.split(",")`. */
  function Split(s: string): seq<string>
  {
    if ',' !in s then [s] else DropTrailingEmpty(Pieces(s))
  }

  /** Cutting at the commas and joining again gives back the string, and no piece holds a comma. */
  lemma {:induction false} JoinPieces(s: string)
    ensures Join(Pieces(s)) == s
    ensures forall i :: 0 <= i < |Pieces(s)| ==> CommaFree(Pieces(s)[i])
    decreases |s|
  {
    if s != [] {
      JoinPieces(s[1..]);
      var rest := Pieces(s[1..]);
      if s[0] == ',' {
        assert ([""] + rest)[1..] == rest;
        assert s == [','] + s[1..];
      } else {
        var ps := [[s[0]] + rest[0]] + rest[1..];
        assert forall i :: 1 <= i < |ps| ==> ps[i] == rest[i];
        if |rest| == 1 {
          assert s == [s[0]] + s[1..];
        } else {
          assert ps[1..] == rest[1..];
          assert s == [s[0]] + (rest[0] + "," + Join(rest[1..]));
        }
      }
    }
  }

  lemma {:induction false} PiecesOfCommaFree(w: string)
    requires CommaFree(w)
    ensures Pieces(w) == [w]
    decreases |w|
  {
    if w != [] {
      PiecesOfCommaFree(w[1..]);
      assert [w[0]] + w[1..] == w;
    }
  }

  lemma {:induction false} PiecesAfterComma(w: string, t: string)
    requires CommaFree(w)
    ensures Pieces(w + "," + t) == [w] + Pieces(t)
    decreases |w|
  {
    if w == [] {
      assert w + "," + t == [','] + t;
      assert ([','] + t)[1..] == t;
    } else {
      var s := w + "," + t;
      assert s[0] == w[0] && s[1..] == w[1..] + "," + t;
      PiecesAfterComma(w[1..], t);
      assert [w[0]] + w[1..] == w;
    }
  }

  /** Joining comma-free pieces and cutting again gives back the pieces. */
  lemma {:induction false} PiecesJoin(ps: seq<string>)
    requires |ps| >= 1
    requires forall i :: 0 <= i < |ps| ==> CommaFree(ps[i])
    ensures Pieces(Join(ps)) == ps
    decreases |ps|
  {
    if |ps| == 1 {
      PiecesOfCommaFree(ps[0]);
    } else {
      PiecesJoin(ps[1..]);
      PiecesAfterComma(ps[0], Join(ps[1..]));
      assert [ps[0]] + ps[1..] == ps;
    }
  }

  /** The elements of a split are the leading pieces, in order; whatever was cut
      off at the end was empty. A string with a comma never splits to a list that
      ends in an empty string. */
  lemma SplitIsPrefixOfPieces(s: string)
    ensures |Split(s)| <= |Pieces(s)| && Split(s) == Pieces(s)[..|Split(s)|]
    ensures forall i :: |Split(s)| <= i < |Pieces(s)| ==> Pieces(s)[i] == ""
    ensures ',' in s ==> Split(s) == [] || Split(s)[|Split(s)| - 1] != ""
  {
    if ',' !in s {
      PiecesOfCommaFree(s);
    }
  }

  /** Exact membership: a non-empty id is in the split list iff it is one of the
      pieces between commas. */
  lemma SplitMembership(s: string, x: string)
    requires x != ""
    ensures x in Split(s) <==> x in Pieces(s)
  {
    SplitIsPrefixOfPieces(s);
    var ps, r := Pieces(s), Split(s);
    if x in ps {
      var i :| 0 <= i < |ps| && ps[i] == x;
      assert i < |r| && r[i] == x;
    }
  }

  lemma {:induction false} PiecesTrailingComma(s: string)
    ensures Pieces(s + ",") == Pieces(s) + [""]
    decreases |s|
  {
    if s == [] {
      assert s + "," == [','];
      assert [','][1..] == [];
    } else {
      var t := s + ",";
      assert t[0] == s[0] && t[1..] == s[1..] + ",";
      PiecesTrailingComma(s[1..]);
      var rest := Pieces(s[1..]);
      if s[0] != ',' {
        assert (rest + [""])[0] == rest[0];
        assert (rest + [""])[1..] == rest[1..] + [""];
      }
    }
  }

  /** A trailing comma is ignored, except after the empty string (",".split(",")
      is empty while "".split(",") is [""]). */
  lemma SplitTrailingComma(s: string)
    requires s != ""
    ensures Split(s + ",") == Split(s)
  {
    PiecesTrailingComma(s);
    var ps := Pieces(s);
    assert (ps + [""])[..|ps|] == ps;
    if ',' !in s {
      PiecesOfCommaFree(s);
      assert ',' in s + ",";
      assert [s, ""][..1] == [s];
      assert DropTrailingEmpty([s, ""]) == DropTrailingEmpty([s]);
    } else {
      assert ',' in s + "," by {
        var i :| 0 <= i < |s| && s[i] == ',';
        assert (s + ",")[i] == ',';
      }
    }
  }

  /** Two comma-free ids joined by a comma split back into the two ids, unless
      the second one is empty. */
  lemma SplitTwo(a: string, b: string)
    requires CommaFree(a) && CommaFree(b) && b != ""
    ensures Split(a + "," + b) == [a, b]
  {
    PiecesJoin([a, b]);
    assert Join([a, b]) == a + "," + b;
    assert (a + "," + b)[|a|] == ',';
  }

  /** Sample splits: trailing empties dropped, leading ones kept, no comma gives the string itself. */
  lemma SplitExamples()
    ensures Split("q1,q2") == ["q1", "q2"]
    ensures Split("a,b,") == ["a", "b"]
    ensures Split(",") == []
    ensures Split("") == [""]
    ensures Split(",a") == ["", "a"]
  {
    PiecesJoin(["q1", "q2"]);
    assert Join(["q1", "q2"]) == "q1,q2";
    PiecesJoin(["a", "b", ""]);
    assert Join(["a", "b", ""]) == "a,b,";
    assert ["a", "b", ""][..2] == ["a", "b"];
    PiecesJoin(["", ""]);
    assert Join(["", ""]) == ",";
    PiecesJoin(["", "a"]);
    assert Join(["", "a"]) == ",a";
    assert "q1,q2"[2] == ',';
    assert "a,b,"[1] == ',';
    assert ","[0] == ',';
    assert ",a"[0] == ',';
  }
}
