// Writing into part of a buffer, for the models that fill buffers in place.
module Buffers {
  // A buffer with a part written into it.
  function Splice<T>(before: seq<T>, at: nat, part: seq<T>): seq<T>
    requires at + |part| <= |before|
  {
    before[..at] + part + before[at + |part|..]
  }

  lemma Spliced<T>(before: seq<T>, after: seq<T>, at: nat, part: seq<T>)
    requires |after| == |before| && at + |part| <= |before|
    requires forall i :: at <= i < at + |part| ==> after[i] == part[i - at]
    requires forall i :: 0 <= i < |before| && !(at <= i < at + |part|) ==> after[i] == before[i]
    ensures after == Splice(before, at, part)
  {
  }
}
