/**
  Go's `strings.Split` and its inverse `strings.Join`, for a non-empty
  separator. `Split` cuts at every occurrence of the separator, scanning
  from the left and never letting two occurrences overlap.
 */
module GoStrings {

  /** `sep` occurs in `s` starting at index `i`. */
  predicate OccursAt(s: string, sep: string, i: nat) {
    i + |sep| <= |s| && s[i..i + |sep|] == sep
  }

  /** `strings.Contains(s, sep)`. */
  predicate Contains(s: string, sep: string) {
    exists i: nat | i <= |s| :: OccursAt(s, sep, i)
  }

  /**
    `strings.Split(s, sep)`: never empty, and its first piece is a prefix
    of `s` (the text before the first occurrence of `sep`).
   */
  function Split(s: string, sep: string): (parts: seq<string>)
    requires sep != ""
    ensures |parts| >= 1 && parts[0] <= s
    decreases |s|
  {
    if |s| < |sep| then [s]
    else if s[..|sep|] == sep then [""] + Split(s[|sep|..], sep)
    else
      var rest := Split(s[1..], sep);
      [[s[0]] + rest[0]] + rest[1..]
  }

  /** `strings.Join(parts, sep)`. */
  function Join(parts: seq<string>, sep: string): string {
    if parts == [] then ""
    else if |parts| == 1 then parts[0]
    else parts[0] + sep + Join(parts[1..], sep)
  }

  /** Joining the pieces with the separator gives back the string that was split. */
  lemma {:induction false} JoinSplit(s: string, sep: string)
    requires sep != ""
    ensures Join(Split(s, sep), sep) == s
    decreases |s|
  {
    if |s| < |sep| {
    } else if s[..|sep|] == sep {
      var rest := Split(s[|sep|..], sep);
      JoinSplit(s[|sep|..], sep);
      assert ([""] + rest)[1..] == rest;
      assert s == sep + s[|sep|..];
    } else {
      var rest := Split(s[1..], sep);
      JoinSplit(s[1..], sep);
      JoinExtendHead(rest, [s[0]], sep);
      assert s == [s[0]] + s[1..];
    }
  }

  /** Extending the first piece extends the joined string by the same text. */
  lemma JoinExtendHead(parts: seq<string>, x: string, sep: string)
    requires |parts| >= 1
    ensures Join([x + parts[0]] + parts[1..], sep) == x + Join(parts, sep)
  {
    var ext := [x + parts[0]] + parts[1..];
    assert ext[1..] == parts[1..];
  }

  /** A string that does not contain the separator is split into itself alone. */
  lemma {:induction false} SplitWithoutSeparator(s: string, sep: string)
    requires sep != "" && !Contains(s, sep)
    ensures Split(s, sep) == [s]
    decreases |s|
  {
    if |s| >= |sep| {
      assert !OccursAt(s, sep, 0);
      forall i: nat | OccursAt(s[1..], sep, i)
        ensures OccursAt(s, sep, i + 1)
      {
        assert s[i + 1..i + 1 + |sep|] == s[1..][i..i + |sep|];
      }
      SplitWithoutSeparator(s[1..], sep);
      assert [s[0]] + s[1..] == s;
    }
  }

  /** No piece of a split contains the separator. */
  lemma {:induction false} SplitPiecesAreFree(s: string, sep: string)
    requires sep != ""
    ensures forall k :: 0 <= k < |Split(s, sep)| ==> !Contains(Split(s, sep)[k], sep)
    decreases |s|
  {
    var parts := Split(s, sep);
    if |s| < |sep| {
      forall i: nat | OccursAt(s, sep, i) ensures false { }
    } else if s[..|sep|] == sep {
      var rest := Split(s[|sep|..], sep);
      SplitPiecesAreFree(s[|sep|..], sep);
      assert parts == [""] + rest;
      forall i: nat | OccursAt("", sep, i) ensures false { }
    } else {
      var rest := Split(s[1..], sep);
      SplitPiecesAreFree(s[1..], sep);
      var head := [s[0]] + rest[0];
      assert parts == [head] + rest[1..];
      forall i: nat | 0 < i <= |head|
        ensures OccursAt(head, sep, i) == OccursAt(rest[0], sep, i - 1)
      {
        if i + |sep| <= |head| {
          assert head[i..i + |sep|] == rest[0][i - 1..i - 1 + |sep|];
        }
      }
      assert !OccursAt(head, sep, 0);
    }
  }

  /**
    A piece followed by the separator is split off as the first piece,
    provided no occurrence of the separator begins inside that piece.
   */
  lemma {:induction false} SplitFirstPiece(x: string, sep: string, y: string)
    requires sep != ""
    requires forall i: nat :: i < |x| ==> !OccursAt(x + sep, sep, i)
    ensures Split(x + sep + y, sep) == [x] + Split(y, sep)
    decreases |x|
  {
    var s := x + sep + y;
    if x == [] {
      assert s[..|sep|] == sep && s[|sep|..] == y;
    } else {
      assert !OccursAt(x + sep, sep, 0);
      assert s[..|sep|] == (x + sep)[..|sep|];
      forall i: nat | i < |x[1..]|
        ensures !OccursAt(x[1..] + sep, sep, i)
      {
        assert !OccursAt(x + sep, sep, i + 1);
        assert x + sep == [x[0]] + (x[1..] + sep);
        assert (x + sep)[i + 1..i + 1 + |sep|] == (x[1..] + sep)[i..i + |sep|];
      }
      assert s[1..] == x[1..] + sep + y;
      SplitFirstPiece(x[1..], sep, y);
      assert [s[0]] + x[1..] == x;
    }
  }

  /** For a one-character separator, a piece free of that character satisfies `SplitFirstPiece`. */
  lemma OneCharSeparator(x: string, sep: string)
    requires |sep| == 1 && FreeOf(x, sep[0])
    ensures !Contains(x, sep)
    ensures forall i: nat :: i < |x| ==> !OccursAt(x + sep, sep, i)
  {
    forall i: nat | i < |x| ensures !OccursAt(x + sep, sep, i) {
      assert (x + sep)[i] == x[i];
    }
    forall i: nat | i <= |x| ensures !OccursAt(x, sep, i) {
      if i + 1 <= |x| {
        assert x[i..i + 1][0] == x[i];
      }
    }
  }

  /** No character of `x` is `c`. */
  predicate FreeOf(x: string, c: char) {
    forall i :: 0 <= i < |x| ==> x[i] != c
  }

  /**
    For a one-character separator, splitting undoes joining: pieces that do
    not contain the separator come back unchanged.
   */
  lemma {:induction false} SplitJoin(parts: seq<string>, sep: string)
    requires |parts| >= 1 && |sep| == 1
    requires forall k :: 0 <= k < |parts| ==> FreeOf(parts[k], sep[0])
    ensures Split(Join(parts, sep), sep) == parts
  {
    OneCharSeparator(parts[0], sep);
    if |parts| == 1 {
      SplitWithoutSeparator(parts[0], sep);
    } else {
      SplitFirstPiece(parts[0], sep, Join(parts[1..], sep));
      SplitJoin(parts[1..], sep);
      assert [parts[0]] + parts[1..] == parts;
    }
  }
}
