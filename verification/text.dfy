/** Splitting text around a separator, the way the console's loader cuts its
    input into lines and each line into fields: at every non-overlapping
    occurrence of the separator, scanning from the left. */
module Text {
  import opened Options

  /** `sep` occurs in `s` starting at position `i`. */
  predicate Occurs(s: string, sep: string, i: int)
  {
    0 <= i && i + |sep| <= |s| && s[i..i + |sep|] == sep
  }

  /** The first occurrence of `sep` in `s` at or after `from`, if any. */
  function Find(s: string, sep: string, from: nat): (r: Option<nat>)
    requires |sep| > 0
    ensures r.Some? ==> from <= r.value && Occurs(s, sep, r.value)
    ensures r.Some? ==> forall j :: from <= j < r.value ==> !Occurs(s, sep, j)
    ensures r.None? ==> forall j :: from <= j ==> !Occurs(s, sep, j)
    decreases |s| - from
  {
    if from + |sep| > |s| then None
    else if s[from..from + |sep|] == sep then Some(from)
    else Find(s, sep, from + 1)
  }

  /** The pieces of `s` between the occurrences of `sep`; text without the
      separator, the empty text included, is a single piece. */
  function Split(s: string, sep: string): (parts: seq<string>)
    requires |sep| > 0
    ensures |parts| >= 1
    ensures forall k, j :: 0 <= k < |parts| ==> !Occurs(parts[k], sep, j)
    decreases |s|
  {
    match Find(s, sep, 0)
    case None => [s]
    case Some(i) =>
      PrefixClean(s, sep, i);
      [s[..i]] + Split(s[i + |sep|..], sep)
  }

  /** The text before the first occurrence of `sep` holds no occurrence. */
  lemma PrefixClean(s: string, sep: string, i: nat)
    requires |sep| > 0 && i <= |s|
    requires forall j :: 0 <= j < i ==> !Occurs(s, sep, j)
    ensures forall j :: !Occurs(s[..i], sep, j)
  {
    forall j
      ensures !Occurs(s[..i], sep, j)
    {
      if 0 <= j && j + |sep| <= i {
        assert s[..i][j..j + |sep|] == s[j..j + |sep|];
        assert !Occurs(s, sep, j);
      }
    }
  }

  /** The pieces glued back together with `sep` between neighbours. */
  function Join(parts: seq<string>, sep: string): string
  {
    if |parts| == 0 then ""
    else if |parts| == 1 then parts[0]
    else parts[0] + sep + Join(parts[1..], sep)
  }

  /** Joining the pieces of a split gives back the text. */
  lemma {:induction false} JoinSplit(s: string, sep: string)
    requires |sep| > 0
    ensures Join(Split(s, sep), sep) == s
    decreases |s|
  {
    match Find(s, sep, 0)
    case None =>
    case Some(i) =>
      var rest := s[i + |sep|..];
      JoinSplit(rest, sep);
      JoinCons(s[..i], Split(rest, sep), sep);
      CutAt(s, sep, i);
  }

  /** Joining a piece in front of at least one more puts a separator between. */
  lemma JoinCons(p: string, tail: seq<string>, sep: string)
    requires |tail| >= 1
    ensures Join([p] + tail, sep) == p + sep + Join(tail, sep)
  {
    assert ([p] + tail)[1..] == tail;
  }

  /** Text is the part before an occurrence, the separator, and the rest. */
  lemma CutAt(s: string, sep: string, i: int)
    requires Occurs(s, sep, i)
    ensures s == s[..i] + sep + s[i + |sep|..]
  {
    assert s == s[..i] + s[i..i + |sep|] + s[i + |sep|..];
  }

  /** Text that does not contain the first character of `sep` holds no
      occurrence of `sep` up to its end, whatever follows it. */
  lemma NoOccurrenceBefore(p: string, tail: string, sep: string, j: int)
    requires |sep| > 0 && sep[0] !in p
    requires 0 <= j < |p|
    ensures !Occurs(p + tail, sep, j)
  {
    var s := p + tail;
    assert s[j] == p[j];
    if j + |sep| <= |s| {
      assert s[j..j + |sep|][0] == s[j];
    }
  }

  /** An occurrence with none before it, from `from` on, is the one `Find` reports. */
  lemma {:induction false} FindFirst(s: string, sep: string, from: nat, i: nat)
    requires |sep| > 0 && from <= i && Occurs(s, sep, i)
    requires forall j :: from <= j < i ==> !Occurs(s, sep, j)
    ensures Find(s, sep, from) == Some(i)
    decreases i - from
  {
    if from < i {
      assert !Occurs(s, sep, from);
      FindFirst(s, sep, from + 1, i);
    }
  }

  /** Splitting pieces that are joined with `sep` gives back the pieces,
      provided no piece contains the separator's first character. */
  lemma {:induction false} SplitJoin(parts: seq<string>, sep: string)
    requires |sep| > 0 && |parts| >= 1
    requires forall k :: 0 <= k < |parts| ==> sep[0] !in parts[k]
    ensures Split(Join(parts, sep), sep) == parts
    decreases |parts|
  {
    var p := parts[0];
    if |parts| == 1 {
      forall j | 0 <= j
        ensures !Occurs(p, sep, j)
      {
        if j < |p| {
          NoOccurrenceBefore(p, "", sep, j);
          assert p + "" == p;
        }
      }
      assert Find(p, sep, 0).None?;
    } else {
      var tail := sep + Join(parts[1..], sep);
      var s := Join(parts, sep);
      assert s == p + tail;
      forall j | 0 <= j < |p|
        ensures !Occurs(s, sep, j)
      {
        NoOccurrenceBefore(p, tail, sep, j);
      }
      assert s[|p|..|p| + |sep|] == sep;
      FindFirst(s, sep, 0, |p|);
      assert s[|p| + |sep|..] == Join(parts[1..], sep);
      SplitJoin(parts[1..], sep);
    }
  }
}
