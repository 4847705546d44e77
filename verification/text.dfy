/**
 * The few string operations of Go's `strings` package the forwarder uses,
 * restricted to the shapes it uses them in: splitting on a one-character
 * separator and substring containment.
 */
module Text {

  /** `strings.IndexByte(s, c)`, with |s| standing for "not found". */
  function IndexOf(s: string, c: char): (k: nat)
    ensures k <= |s|
    ensures k < |s| ==> s[k] == c
    decreases |s|
  {
    if s == [] then 0
    else if s[0] == c then 0
    else 1 + IndexOf(s[1..], c)
  }

  /** No `c` comes before `IndexOf(s, c)`: it is the first occurrence. */
  lemma {:induction false} IndexOfFirst(s: string, c: char)
    ensures forall i :: 0 <= i < IndexOf(s, c) ==> s[i] != c
    decreases |s|
  {
    if s != [] && s[0] != c {
      IndexOfFirst(s[1..], c);
      assert forall i :: 1 <= i < |s| ==> s[i] == s[1..][i - 1];
    }
  }

  /** The longest `c`-free prefix of `s` is free of `c`. */
  lemma TakeUntilFree(s: string, c: char)
    ensures c !in TakeUntil(s, c)
  {
    IndexOfFirst(s, c);
  }

  /** Whether the character `c` occurs in `s`. */
  predicate Occurs(s: string, c: char)
  {
    IndexOf(s, c) < |s|
  }

  /** The longest prefix of `s` that does not contain `sep`. */
  function TakeUntil(s: string, sep: char): string
  {
    s[..IndexOf(s, sep)]
  }

  /** The text after the first occurrence of `sep` in `s`. */
  function AfterFirst(s: string, sep: char): string
    requires Occurs(s, sep)
  {
    s[IndexOf(s, sep) + 1..]
  }

  /**
   * `strings.Split(s, string(sep))`: the pieces of `s` between occurrences
   * of `sep`, in order; there is always one more piece than separators, so
   * the empty string splits into one empty piece.
   */
  function Split(s: string, sep: char): (parts: seq<string>)
    ensures |parts| >= 1
    ensures parts[0] == TakeUntil(s, sep)
    ensures (|parts| == 1) == !Occurs(s, sep)
    decreases |s|
  {
    if !Occurs(s, sep) then [s]
    else [TakeUntil(s, sep)] + Split(AfterFirst(s, sep), sep)
  }

  /** No piece of a split contains the separator. */
  lemma {:induction false} SplitPiecesFree(s: string, sep: char)
    ensures forall i :: 0 <= i < |Split(s, sep)| ==> sep !in Split(s, sep)[i]
    decreases |s|
  {
    TakeUntilFree(s, sep);
    if Occurs(s, sep) {
      var tail := AfterFirst(s, sep);
      SplitPiecesFree(tail, sep);
      forall i | 0 <= i < |Split(s, sep)|
        ensures sep !in Split(s, sep)[i]
      {
        if i > 0 {
          assert Split(s, sep)[i] == Split(tail, sep)[i - 1];
        }
      }
    }
  }

  /** `strings.Join(parts, string(sep))`. */
  function Join(parts: seq<string>, sep: char): string
  {
    if parts == [] then ""
    else if |parts| == 1 then parts[0]
    else parts[0] + [sep] + Join(parts[1..], sep)
  }

  /** Splitting and joining again gives back the original text. */
  lemma {:induction false} JoinSplit(s: string, sep: char)
    ensures Join(Split(s, sep), sep) == s
    decreases |s|
  {
    var k := IndexOf(s, sep);
    if k < |s| {
      var tail := s[k + 1..];
      calc {
        Join(Split(s, sep), sep);
        == { assert Split(s, sep) == [s[..k]] + Split(tail, sep); }
        Join([s[..k]] + Split(tail, sep), sep);
        == { JoinCons(s[..k], Split(tail, sep), sep); }
        s[..k] + [sep] + Join(Split(tail, sep), sep);
        == { JoinSplit(tail, sep); }
        s[..k] + [sep] + tail;
        == { CutAt(s, k); }
        s;
      }
    }
  }

  /** Joining a piece in front of at least one other puts `sep` between them. */
  lemma JoinCons(head: string, rest: seq<string>, sep: char)
    requires rest != []
    ensures Join([head] + rest, sep) == head + [sep] + Join(rest, sep)
  {
    assert ([head] + rest)[1..] == rest;
  }

  /** A string is the text before position `k`, the character at `k` and the text after it. */
  lemma CutAt(s: string, k: nat)
    requires k < |s|
    ensures s[..k] + [s[k]] + s[k + 1..] == s
  {
  }

  /** The first `sep` of `head + [sep] + tail`, when `head` has none, ends `head`. */
  lemma IndexOfJoined(head: string, sep: char, tail: string)
    requires sep !in head
    ensures IndexOf(head + [sep] + tail, sep) == |head|
  {
    var s := head + [sep] + tail;
    var k := IndexOf(s, sep);
    IndexOfFirst(s, sep);
    assert s[|head|] == sep;
  }

  /** Joining pieces free of `sep` and splitting again gives back the pieces. */
  lemma {:induction false} SplitJoin(parts: seq<string>, sep: char)
    requires |parts| >= 1
    requires forall i :: 0 <= i < |parts| ==> sep !in parts[i]
    ensures Split(Join(parts, sep), sep) == parts
  {
    if |parts| == 1 {
      assert IndexOf(parts[0], sep) == |parts[0]|;
    } else {
      var s := Join(parts, sep);
      var tail := Join(parts[1..], sep);
      assert s == parts[0] + [sep] + tail;
      IndexOfJoined(parts[0], sep, tail);
      assert s[..|parts[0]|] == parts[0];
      assert AfterFirst(s, sep) == tail;
      SplitJoin(parts[1..], sep);
    }
  }

  /** `strings.Contains(s, sub)`: `sub` occurs in `s` at some position. */
  predicate Contains(s: string, sub: string)
    decreases |s|
  {
    sub <= s || (s != [] && Contains(s[1..], sub))
  }
}
