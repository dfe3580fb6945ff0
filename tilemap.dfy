/**
 * Building a level from its textual form (main.go, `mapFromString`).
 * The text is a sequence of bytes, each written as a `char`.
 */
module TileMap {
  import opened Tiles

  const Newline: char := '\n'

  /** The number of newline bytes in `s`. */
  function NewlineCount(s: seq<char>): nat
  {
    if s == [] then 0
    else (if s[0] == Newline then 1 else 0) + NewlineCount(s[1..])
  }

  /**
   * `strings.Split(s, "\n")`: the pieces between newlines, in order; the
   * empty text gives one empty piece.
   */
  function Lines(s: seq<char>): (r: seq<seq<char>>)
    ensures |r| == NewlineCount(s) + 1
  {
    if s == [] then [[]]
    else
      var rest := Lines(s[1..]);
      if s[0] == Newline then [[]] + rest
      else [[s[0]] + rest[0]] + rest[1..]
  }

  /** `strings.Join(ls, "\n")`, the inverse of `Lines`. */
  function JoinLines(ls: seq<seq<char>>): seq<char>
    requires |ls| > 0
  {
    if |ls| == 1 then ls[0] else ls[0] + [Newline] + JoinLines(ls[1..])
  }

  /** No piece contains a newline. */
  predicate NoNewlines(ls: seq<seq<char>>) {
    forall k :: 0 <= k < |ls| ==> Newline !in ls[k]
  }

  /** Rejoining the pieces gives the text back. */
  lemma {:induction false} JoinLinesOfLines(s: seq<char>)
    ensures JoinLines(Lines(s)) == s
  {
    if s != [] {
      JoinLinesOfLines(s[1..]);
      var rest := Lines(s[1..]);
      if s[0] == Newline {
        assert Lines(s)[1..] == rest;
      } else {
        var r := Lines(s);
        assert r[0] == [s[0]] + rest[0];
        if |rest| == 1 {
          assert r == [[s[0]] + rest[0]];
        } else {
          assert r[1..] == rest[1..];
          assert JoinLines(rest) == rest[0] + [Newline] + JoinLines(rest[1..]);
        }
      }
    }
  }

  /** The pieces never contain the separator. */
  lemma {:induction false} LinesHaveNoNewlines(s: seq<char>)
    ensures NoNewlines(Lines(s))
  {
    if s != [] {
      LinesHaveNoNewlines(s[1..]);
      var rest := Lines(s[1..]);
      var r := Lines(s);
      assert Newline !in rest[0];
      forall k | 0 <= k < |r| ensures Newline !in r[k] {
        if k > 0 {
          assert r[k] == rest[if s[0] == Newline then k - 1 else k];
        }
      }
    }
  }

  /**
   * `Lines` is the only way to cut `s` into newline-free pieces: any such
   * cutting that rejoins to `s` is `Lines(s)`.
   */
  lemma {:induction false} LinesUnique(s: seq<char>, ls: seq<seq<char>>)
    requires |ls| > 0 && NoNewlines(ls) && JoinLines(ls) == s
    ensures ls == Lines(s)
    decreases |s|
  {
    if |ls| == 1 {
      assert Newline !in ls[0];
      LinesOfNewlineFree(ls[0]);
    } else if ls[0] == [] {
      var tail := ls[1..];
      assert NoNewlines(tail) by {
        forall k | 0 <= k < |tail| ensures Newline !in tail[k] { assert tail[k] == ls[k + 1]; }
      }
      assert s == [Newline] + JoinLines(tail);
      assert s[1..] == JoinLines(tail);
      LinesUnique(s[1..], tail);
      assert ls == [[]] + tail;
    } else {
      var c := ls[0][0];
      assert c in ls[0];
      var ls' := [ls[0][1..]] + ls[1..];
      assert NoNewlines(ls') by {
        forall k | 0 <= k < |ls'| ensures Newline !in ls'[k] {
          if k == 0 {
            assert forall x :: x in ls[0][1..] ==> x in ls[0];
          } else {
            assert ls'[k] == ls[k];
          }
        }
      }
      assert ls'[1..] == ls[1..];
      assert JoinLines(ls') == ls[0][1..] + [Newline] + JoinLines(ls[1..]);
      assert s == [c] + JoinLines(ls') by {
        assert ls[0] == [c] + ls[0][1..];
      }
      assert s[1..] == JoinLines(ls');
      LinesUnique(s[1..], ls');
      assert s[0] == c && c != Newline;
      assert ls[0] == [c] + ls'[0];
      assert ls == [ls[0]] + ls[1..];
      assert ls == [[c] + ls'[0]] + ls'[1..];
    }
  }

  /** A newline-free text is a single piece. */
  lemma {:induction false} LinesOfNewlineFree(s: seq<char>)
    requires Newline !in s
    ensures Lines(s) == [s]
  {
    if s != [] {
      assert Newline !in s[1..] by {
        assert forall x :: x in s[1..] ==> x in s;
      }
      LinesOfNewlineFree(s[1..]);
      assert s == [s[0]] + s[1..];
    }
  }

  /**
   * `mapFromString`: one row per line of `str`; each row as long as its line
   * in bytes; byte '1' is `Wall1`, byte '2' is `Wall2`, any other byte is
   * `Empty`.
   */
  method MapFromString(str: seq<char>) returns (m: seq<seq<Tile>>)
    ensures |m| == NewlineCount(str) + 1
    ensures |m| == |Lines(str)|
    ensures forall j :: 0 <= j < |m| ==> |m[j]| == |Lines(str)[j]|
    ensures forall j, i :: 0 <= j < |m| && 0 <= i < |m[j]| ==>
              (m[j][i] == Wall1 <==> Lines(str)[j][i] == '1') &&
              (m[j][i] == Wall2 <==> Lines(str)[j][i] == '2') &&
              (m[j][i] == Empty <==> Lines(str)[j][i] != '1' && Lines(str)[j][i] != '2')
    ensures IsWellFormedLevel(m)
  {
    var lines := Lines(str);
    var rows := new seq<Tile>[|lines|];
    for j := 0 to |lines|
      invariant forall j' :: 0 <= j' < j ==> RowOf(rows[j'], lines[j'])
    {
      var line := lines[j];
      var row := new Tile[|line|](_ => Empty);
      for i := 0 to |line|
        modifies row
        invariant forall i' :: 0 <= i' < i ==> TileOf(row[i'], line[i'])
      {
        var t: Tile;
        match line[i] {
          case '1' => t := Wall1;
          case '2' => t := Wall2;
          case _ => t := Empty;
        }
        row[i] := t;
      }
      rows[j] := row[..];
    }
    m := rows[..];
  }

  /** Tile `t` is what byte `c` stands for. */
  predicate TileOf(t: Tile, c: char) {
    (t == Wall1 <==> c == '1') && (t == Wall2 <==> c == '2') && IsTileKind(t)
  }

  /** `row` holds the tiles of `line`, one per byte. */
  predicate RowOf(row: seq<Tile>, line: seq<char>) {
    |row| == |line| && forall i :: 0 <= i < |row| ==> TileOf(row[i], line[i])
  }
}
