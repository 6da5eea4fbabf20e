/** Option and Result values, used where the Python code returns None or raises. */
module Wrappers {

  datatype Option<+T> = None | Some(value: T)

  datatype Result<+T, +E> = Ok(value: T) | Err(error: E)
}

/** The numeric levels of Python's logging module, as pyznap uses them. */
module LogLevels {

  const TRACE: int := 8
  const DEBUG: int := 10
  const INFO: int := 20
  const WARNING: int := 30
  const ERROR: int := 40
}

/** Concatenating a sequence of sequences, as the nested loops over entries and datasets walk them. */
module Sequences {

  /** The concatenation of a sequence of sequences. */
  function Flatten<T>(xss: seq<seq<T>>): seq<T>
  {
    if xss == [] then [] else Flatten(xss[..|xss| - 1]) + xss[|xss| - 1]
  }

  lemma FlattenStep<T>(xss: seq<seq<T>>, i: nat)
    requires i < |xss|
    ensures Flatten(xss[..i + 1]) == Flatten(xss[..i]) + xss[i]
  {
    assert xss[..i + 1][..i] == xss[..i];
  }

  /** An element is in the concatenation iff it is in one of the parts. */
  lemma {:induction false} FlattenMembers<T>(xss: seq<seq<T>>, x: T)
    ensures x in Flatten(xss) <==> exists i :: 0 <= i < |xss| && x in xss[i]
    decreases |xss|
  {
    if xss != [] {
      var init := xss[..|xss| - 1];
      FlattenMembers(init, x);
      if x in xss[|xss| - 1] {
        assert 0 <= |xss| - 1 < |xss|;
      }
      if exists i :: 0 <= i < |xss| && x in xss[i] {
        var i :| 0 <= i < |xss| && x in xss[i];
        if i < |init| {
          assert xss[i] == init[i];
        }
      }
    }
  }

  /** The concatenation of the first parts is a prefix of the whole concatenation. */
  lemma {:induction false} FlattenPrefix<T>(xss: seq<seq<T>>, i: nat)
    requires i <= |xss|
    ensures Flatten(xss[..i]) <= Flatten(xss)
    decreases |xss| - i
  {
    if i == |xss| {
      assert xss[..i] == xss;
    } else {
      FlattenStep(xss, i);
      FlattenPrefix(xss, i + 1);
    }
  }
}
