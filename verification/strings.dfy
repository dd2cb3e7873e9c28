/** String helpers with the semantics of the .NET members the source calls:
    `StartsWith` (ordinal), `string.Join`, `string.Split` with
    `StringSplitOptions.RemoveEmptyEntries`. */
module Strings {

  predicate StartsWith(s: string, prefix: string) {
    |prefix| <= |s| && s[..|prefix|] == prefix
  }

  predicate EndsWith(s: string, suffix: string) {
    |suffix| <= |s| && s[|s| - |suffix|..] == suffix
  }

  /** `string.Join(sep, pieces)`. */
  function Join(pieces: seq<string>, sep: string): string
    decreases |pieces|
  {
    if |pieces| == 0 then ""
    else if |pieces| == 1 then pieces[0]
    else pieces[0] + sep + Join(pieces[1..], sep)
  }

  /** Joining one more piece onto a non-empty list appends one separator and the piece. */
  lemma {:induction false} JoinSnoc(pieces: seq<string>, last: string, sep: string)
    requires |pieces| > 0
    ensures Join(pieces + [last], sep) == Join(pieces, sep) + sep + last
    decreases |pieces|
  {
    if |pieces| == 1 {
      assert pieces + [last] == [pieces[0], last];
      assert ([pieces[0], last])[1..] == [last];
    } else {
      assert (pieces + [last])[1..] == pieces[1..] + [last];
      JoinSnoc(pieces[1..], last, sep);
    }
  }

  predicate Free(s: string, c: char) {
    forall i :: 0 <= i < |s| ==> s[i] != c
  }

  /** `s.Split(sep)`: the maximal separator-free runs, empty ones included. */
  function SplitOn(s: string, sep: char): (pieces: seq<string>)
    ensures |pieces| >= 1
    ensures forall k :: 0 <= k < |pieces| ==> Free(pieces[k], sep)
    decreases |s|
  {
    if s == [] then [""]
    else
      var rest := SplitOn(s[1..], sep);
      if s[0] == sep then [""] + rest
      else [[s[0]] + rest[0]] + rest[1..]
  }

  /** Splitting loses nothing: joining the pieces back restores the input. */
  lemma {:induction false} JoinSplitOn(s: string, sep: char)
    ensures Join(SplitOn(s, sep), [sep]) == s
    decreases |s|
  {
    if s != [] {
      var rest := SplitOn(s[1..], sep);
      JoinSplitOn(s[1..], sep);
      if s[0] == sep {
        assert ([""] + rest)[1..] == rest;
        assert Join(SplitOn(s, sep), [sep]) == "" + [sep] + Join(rest, [sep]);
        assert s == [s[0]] + s[1..];
      } else {
        var pieces := [[s[0]] + rest[0]] + rest[1..];
        if |rest| == 1 {
          assert Join(pieces, [sep]) == [s[0]] + rest[0];
        } else {
          assert pieces[1..] == rest[1..];
          assert Join(rest, [sep]) == rest[0] + [sep] + Join(rest[1..], [sep]);
          assert Join(pieces, [sep]) == [s[0]] + rest[0] + [sep] + Join(rest[1..], [sep]);
        }
        assert s == [s[0]] + s[1..];
      }
    }
  }

  /** Splitting a join of separator-free pieces gives the pieces back. */
  lemma {:induction false} SplitOnJoin(pieces: seq<string>, sep: char)
    requires |pieces| >= 1
    requires forall k :: 0 <= k < |pieces| ==> Free(pieces[k], sep)
    ensures SplitOn(Join(pieces, [sep]), sep) == pieces
    decreases |pieces|, |pieces[0]|
  {
    var head := pieces[0];
    if |pieces| == 1 {
      SplitOnFree(head, sep);
    } else if head == [] {
      var tail := pieces[1..];
      SplitOnJoin(tail, sep);
      var s := Join(pieces, [sep]);
      assert s == [sep] + Join(tail, [sep]);
      assert s[1..] == Join(tail, [sep]);
      assert pieces == [""] + tail;
    } else {
      var shorter := [head[1..]] + pieces[1..];
      assert shorter[1..] == pieces[1..];
      assert Free(shorter[0], sep) by {
        assert forall i :: 0 <= i < |head[1..]| ==> head[1..][i] == head[i + 1];
      }
      SplitOnJoin(shorter, sep);
      var s := Join(pieces, [sep]);
      assert s == head + [sep] + Join(pieces[1..], [sep]);
      assert s[1..] == Join(shorter, [sep]);
      assert s[0] == head[0] && head[0] != sep;
      assert [head[0]] + head[1..] == head;
    }
  }

  /** A separator-free string splits into itself. */
  lemma {:induction false} SplitOnFree(s: string, sep: char)
    requires Free(s, sep)
    ensures SplitOn(s, sep) == [s]
    decreases |s|
  {
    if s != [] {
      SplitOnFree(s[1..], sep);
      assert [s[0]] + s[1..] == s;
    }
  }

  /** `StringSplitOptions.RemoveEmptyEntries`: drop the empty pieces, keep the
      order. A single piece is kept exactly when it is non-empty; with
      `WithoutEmptyAppend` this fixes the order and multiplicity of the rest. */
  function WithoutEmpty(pieces: seq<string>): (kept: seq<string>)
    ensures forall k :: 0 <= k < |kept| ==> kept[k] != [] && kept[k] in pieces
    ensures forall p :: p in pieces && p != [] ==> p in kept
    ensures |kept| <= |pieces|
    ensures |pieces| == 1 ==> kept == if pieces[0] == [] then [] else pieces
  {
    if pieces == [] then []
    else if pieces[0] == [] then WithoutEmpty(pieces[1..])
    else [pieces[0]] + WithoutEmpty(pieces[1..])
  }

  /** `s.Split(new[] { sep }, StringSplitOptions.RemoveEmptyEntries)`. */
  function SplitRemoveEmpty(s: string, sep: char): (entries: seq<string>)
    ensures forall k :: 0 <= k < |entries| ==> entries[k] != [] && Free(entries[k], sep)
  {
    WithoutEmpty(SplitOn(s, sep))
  }

  /** Dropping empty pieces distributes over concatenation. */
  lemma {:induction false} WithoutEmptyAppend(s: seq<string>, u: seq<string>)
    ensures WithoutEmpty(s + u) == WithoutEmpty(s) + WithoutEmpty(u)
    decreases |s|
  {
    if s == [] {
      assert s + u == u;
    } else {
      assert (s + u)[1..] == s[1..] + u;
      WithoutEmptyAppend(s[1..], u);
    }
  }

  /** Separator-free pieces joined and split again come back with the empty
      ones dropped; non-empty pieces come back unchanged. */
  lemma SplitRemoveEmptyJoin(entries: seq<string>, sep: char)
    requires forall k :: 0 <= k < |entries| ==> Free(entries[k], sep)
    ensures SplitRemoveEmpty(Join(entries, [sep]), sep) == WithoutEmpty(entries)
    ensures (forall k :: 0 <= k < |entries| ==> entries[k] != [])
        ==> SplitRemoveEmpty(Join(entries, [sep]), sep) == entries
  {
    if entries == [] {
      assert SplitOn("", sep) == [""];
      assert [""][1..] == [];
    } else {
      SplitOnJoin(entries, sep);
      if forall k :: 0 <= k < |entries| ==> entries[k] != [] {
        WithoutEmptyKeeps(entries);
      }
    }
  }

  lemma {:induction false} WithoutEmptyKeeps(pieces: seq<string>)
    requires forall k :: 0 <= k < |pieces| ==> pieces[k] != []
    ensures WithoutEmpty(pieces) == pieces
  {
    if pieces != [] {
      WithoutEmptyKeeps(pieces[1..]);
    }
  }
}
