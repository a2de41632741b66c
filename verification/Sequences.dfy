/** Sequences that grow at the end, and subsequences selected by flags. */
module Sequences {
  function Init<T>(s: seq<T>): seq<T>
    requires s != []
  {
    s[..|s| - 1]
  }

  function Last<T>(s: seq<T>): T
    requires s != []
  {
    s[|s| - 1]
  }

  /** The elements whose flag is set, in order. */
  function Kept<T>(s: seq<T>, keep: seq<bool>): seq<T>
    requires |keep| == |s|
  {
    if s == [] then []
    else if Last(keep) then Kept(Init(s), Init(keep)) + [Last(s)]
    else Kept(Init(s), Init(keep))
  }

  lemma KeptOneMore<T>(s: seq<T>, keep: seq<bool>, x: T, b: bool)
    requires |keep| == |s|
    ensures Kept(s + [x], keep + [b]) == if b then Kept(s, keep) + [x] else Kept(s, keep)
  {
    assert Init(s + [x]) == s && Init(keep + [b]) == keep;
  }

  lemma {:induction false} KeptLength<S, T>(s: seq<S>, u: seq<T>, keep: seq<bool>)
    requires |keep| == |s| == |u|
    ensures |Kept(s, keep)| == |Kept(u, keep)|
  {
    if s != [] {
      KeptLength(Init(s), Init(u), Init(keep));
    }
  }

  /** Kept elements keep their order: they sit at increasing positions of the sequence. */
  lemma {:induction false} KeptPositions<T>(s: seq<T>, keep: seq<bool>) returns (positions: seq<nat>)
    requires |keep| == |s|
    ensures |positions| == |Kept(s, keep)|
    ensures forall i :: 0 <= i < |positions| ==> positions[i] < |s| && Kept(s, keep)[i] == s[positions[i]]
    ensures forall i, j :: 0 <= i < j < |positions| ==> positions[i] < positions[j]
  {
    if s == [] {
      positions := [];
    } else {
      positions := KeptPositions(Init(s), Init(keep));
      if Last(keep) {
        positions := positions + [|s| - 1];
      }
    }
  }

  function CountFalse(flags: seq<bool>): nat {
    if flags == [] then 0 else CountFalse(Init(flags)) + if Last(flags) then 0 else 1
  }

  /** Every element is either kept or counted as left out. */
  lemma {:induction false} KeptOrLeftOut<T>(s: seq<T>, keep: seq<bool>)
    requires |keep| == |s|
    ensures |Kept(s, keep)| + CountFalse(keep) == |s|
  {
    if s != [] {
      KeptOrLeftOut(Init(s), Init(keep));
    }
  }

  /** Go iterates over maps in no particular order: some element of the set. */
  method AnyElement<T(==)>(s: set<T>) returns (x: T)
    requires s != {}
    ensures x in s
  {
    assert |s| > 0;
    x :| x in s;
  }

  lemma SomeElement<T>(s: set<T>) returns (x: T)
    requires s != {}
    ensures x in s
  {
    assert |s| > 0;
    x :| x in s;
  }
}
