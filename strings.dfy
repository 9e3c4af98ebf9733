/** The few JavaScript string primitives the router relies on: `split` with a
    one-character separator, `join`, and `replace` with a literal pattern and an
    empty replacement (which removes the first occurrence only). */
module Strings {
  import opened Wrappers

  /** `pieces.join(sep)`. */
  function Join(pieces: seq<string>, sep: char): string
  {
    if |pieces| == 0 then ""
    else if |pieces| == 1 then pieces[0]
    else pieces[0] + [sep] + Join(pieces[1..], sep)
  }

  /** `s.split(sep)`: the text between consecutive separators. Like JavaScript,
      the empty string splits into one empty piece. */
  function Split(s: string, sep: char): (pieces: seq<string>)
    ensures |pieces| >= 1
    ensures forall i | 0 <= i < |pieces| :: sep !in pieces[i]
    ensures Join(pieces, sep) == s
    decreases |s|
  {
    if s == [] then [""]
    else
      var rest := Split(s[1..], sep);
      if s[0] == sep then
        assert s == [sep] + Join(rest, sep);
        [""] + rest
      else
        var head := [s[0]] + rest[0];
        assert sep !in head;
        assert Join([head] + rest[1..], sep) == [s[0]] + Join(rest, sep) by {
          if |rest| > 1 {
            assert ([head] + rest[1..])[1..] == rest[1..];
          }
        }
        assert s == [s[0]] + s[1..];
        [head] + rest[1..]
  }

  /** A piece without the separator in front of some text splits as that piece glued to
      the first piece of the text. */
  lemma {:induction false} SplitAfterPlainPrefix(a: string, t: string, sep: char)
    requires sep !in a
    ensures Split(a + t, sep) == [a + Split(t, sep)[0]] + Split(t, sep)[1..]
    decreases |a|
  {
    if a == [] {
      assert a + t == t;
      assert a + Split(t, sep)[0] == Split(t, sep)[0];
      assert Split(t, sep) == [Split(t, sep)[0]] + Split(t, sep)[1..];
    } else {
      SplitAfterPlainPrefix(a[1..], t, sep);
      assert (a + t)[1..] == a[1..] + t;
      assert [a[0]] + (a[1..] + Split(t, sep)[0]) == a + Split(t, sep)[0];
    }
  }

  /** `join` ends with its last piece. */
  lemma {:induction false} JoinEndsWithLast(pieces: seq<string>, sep: char)
    requires |pieces| >= 1
    ensures var last := pieces[|pieces| - 1]; var s := Join(pieces, sep);
      |last| <= |s| && s[|s| - |last|..] == last
  {
    if |pieces| > 1 {
      JoinEndsWithLast(pieces[1..], sep);
    }
  }

  /** Joining one more piece adds the separator and that piece at the end. */
  lemma {:induction false} JoinAppend(pieces: seq<string>, last: string, sep: char)
    requires |pieces| >= 1
    ensures Join(pieces + [last], sep) == Join(pieces, sep) + [sep] + last
  {
    if |pieces| > 1 {
      JoinAppend(pieces[1..], last, sep);
      assert (pieces + [last])[1..] == pieces[1..] + [last];
    } else {
      assert (pieces + [last])[1..] == [last];
    }
  }

  /** `split` undoes `join` when no piece holds the separator. */
  lemma {:induction false} SplitJoin(pieces: seq<string>, sep: char)
    requires |pieces| >= 1
    requires forall i | 0 <= i < |pieces| :: sep !in pieces[i]
    ensures Split(Join(pieces, sep), sep) == pieces
  {
    if |pieces| == 1 {
      SplitAfterPlainPrefix(pieces[0], "", sep);
      assert pieces[0] + "" == pieces[0];
    } else {
      SplitJoin(pieces[1..], sep);
      SplitJoinStep(pieces[0], pieces[1..], sep);
      assert pieces == [pieces[0]] + pieces[1..];
    }
  }

  /** One step of `SplitJoin`: a leading piece without the separator splits off again. */
  lemma SplitJoinStep(first: string, tail: seq<string>, sep: char)
    requires sep !in first && |tail| >= 1
    requires Split(Join(tail, sep), sep) == tail
    ensures Split(Join([first] + tail, sep), sep) == [first] + tail
  {
    var rest := [sep] + Join(tail, sep);
    assert ([first] + tail)[1..] == tail;
    assert Join([first] + tail, sep) == first + rest;
    SplitAfterPlainPrefix(first, rest, sep);
    assert rest[1..] == Join(tail, sep);
    assert Split(rest, sep) == [""] + tail;
    assert first + "" == first;
  }

  /** The first piece is the text before the first separator, and there is more than one
      piece exactly when the separator occurs. */
  lemma {:induction false} SplitFirstPiece(s: string, sep: char)
    ensures var head := Split(s, sep)[0];
      && |head| <= |s| && s[..|head|] == head
      && (|head| < |s| ==> s[|head|] == sep)
      && (|Split(s, sep)| == 1 <==> sep !in s)
    decreases |s|
  {
    if s != [] && s[0] != sep {
      SplitFirstPiece(s[1..], sep);
      var rest := Split(s[1..], sep);
      assert Split(s, sep) == [[s[0]] + rest[0]] + rest[1..];
      assert s == [s[0]] + s[1..];
    }
  }

  /** The pieces after the first split what follows the first separator. */
  lemma {:induction false} SplitAfterFirst(s: string, sep: char)
    requires sep in s
    ensures Split(s, sep)[1..] == Split(s[|Split(s, sep)[0]| + 1..], sep)
    decreases |s|
  {
    if s[0] != sep {
      assert sep in s[1..] by {
        assert s == [s[0]] + s[1..];
      }
      SplitAfterFirst(s[1..], sep);
      var rest := Split(s[1..], sep);
      assert Split(s, sep) == [[s[0]] + rest[0]] + rest[1..];
      assert s[1..][|rest[0]| + 1..] == s[|rest[0]| + 2..];
    }
  }

  /** `pat` occurs in `s` starting at index `i`. */
  predicate OccursAt(s: string, pat: string, i: nat)
  {
    i + |pat| <= |s| && s[i..i + |pat|] == pat
  }

  /** `s.indexOf(pat, start)`: the first index from `start` on where `pat` occurs. */
  function IndexOfFrom(s: string, pat: string, start: nat): (r: Option<nat>)
    ensures r.None? ==> forall j: nat | start <= j :: !OccursAt(s, pat, j)
    ensures r.Some? ==> start <= r.value && OccursAt(s, pat, r.value)
    ensures r.Some? ==> forall j: nat | start <= j < r.value :: !OccursAt(s, pat, j)
    decreases |s| + 1 - start
  {
    if start + |pat| > |s| then None
    else if s[start..start + |pat|] == pat then Some(start)
    else IndexOfFrom(s, pat, start + 1)
  }

  /** `s.replace(pat, '')` for a string `pat`: removes the first occurrence of `pat`,
      wherever it is, and leaves `s` alone when `pat` does not occur. */
  function DeleteFirst(s: string, pat: string): (r: string)
    ensures (forall j: nat :: !OccursAt(s, pat, j)) ==> r == s
    ensures forall i: nat | OccursAt(s, pat, i) && (forall j: nat | j < i :: !OccursAt(s, pat, j)) ::
      r == s[..i] + s[i + |pat|..]
  {
    match IndexOfFrom(s, pat, 0)
    case None => s
    case Some(i) => s[..i] + s[i + |pat|..]
  }
}
