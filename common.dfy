/** Failure-carrying values shared by the whole model, and sequence helpers. */
module Common {

  /** Rust's `Option`. */
  datatype Option<+T> = None | Some(value: T) {
    /** `Option::unwrap_or`. */
    function UnwrapOr(default: T): T {
      match this
      case Some(v) => v
      case None => default
    }
  }

  /** Why an operation did not produce a value: an error propagated with `?`, or a panic
      raised by `unwrap()` on a failed value. */
  datatype Error = Failure(message: string) | Panic(message: string)

  /** The panic of `Option::unwrap()` on `None`. */
  const UnwrapNone: Error := Panic("called `Option::unwrap()` on a `None` value")

  /** Rust's `anyhow::Result<T>`. */
  datatype Result<+T> = Ok(value: T) | Err(error: Error)

  /** Rust's `anyhow::Result<()>`. */
  datatype Outcome = Pass | Fail(error: Error)

  /** The concatenation of a sequence of batches, in batch order (what repeated `Vec::append` builds). */
  function Flatten<T>(batches: seq<seq<T>>): seq<T>
  {
    if |batches| == 0 then [] else batches[0] + Flatten(batches[1..])
  }

  lemma {:induction false} FlattenAppend<T>(batches: seq<seq<T>>, last: seq<T>)
    ensures Flatten(batches + [last]) == Flatten(batches) + last
  {
    if |batches| == 0 {
      assert batches + [last] == [last];
    } else {
      assert (batches + [last])[1..] == batches[1..] + [last];
      FlattenAppend(batches[1..], last);
    }
  }

  /** Batch `j` sits, unaltered, between the batches before it and the batches after it. */
  lemma {:induction false} FlattenAt<T>(batches: seq<seq<T>>, j: nat)
    requires j < |batches|
    ensures Flatten(batches) == Flatten(batches[..j]) + batches[j] + Flatten(batches[j + 1..])
  {
    if j == 0 {
      assert batches[..0] == [];
    } else {
      FlattenAt(batches[1..], j - 1);
      assert batches[1..][..j - 1] == batches[1..j];
      assert batches[1..][j - 1] == batches[j];
      assert batches[1..][j..] == batches[j + 1..];
      assert batches[..j] == [batches[0]] + batches[1..j];
    }
  }

  /** An element is in the concatenation exactly when it is in one of the batches. */
  lemma {:induction false} FlattenMember<T>(batches: seq<seq<T>>, x: T)
    ensures x in Flatten(batches) <==> exists j :: 0 <= j < |batches| && x in batches[j]
  {
    if |batches| > 0 {
      FlattenMember(batches[1..], x);
      if x in Flatten(batches[1..]) {
        var j :| 0 <= j < |batches[1..]| && x in batches[1..][j];
        assert x in batches[j + 1];
      }
      if exists j :: 0 <= j < |batches| && x in batches[j] {
        var j :| 0 <= j < |batches| && x in batches[j];
        if j > 0 {
          assert x in batches[1..][j - 1];
        }
      }
    }
  }

  /** An element of two different batches occurs at least twice in the concatenation. */
  lemma FlattenKeepsDuplicates<T>(batches: seq<seq<T>>, x: T, j1: nat, j2: nat)
    requires j1 < j2 < |batches|
    requires x in batches[j1] && x in batches[j2]
    ensures multiset(Flatten(batches))[x] >= 2
  {
    var rest := batches[j1 + 1..];
    FlattenAt(rest, j2 - j1 - 1);
    assert rest[j2 - j1 - 1] == batches[j2];
    MiddleCount(Flatten(rest[..j2 - j1 - 1]), batches[j2], Flatten(rest[j2 - j1..]), x);
    FlattenAt(batches, j1);
    MiddleCount(Flatten(batches[..j1]), batches[j1], Flatten(rest), x);
  }

  lemma MiddleCount<T>(a: seq<T>, b: seq<T>, c: seq<T>, x: T)
    ensures multiset(a + b + c)[x] == multiset(a)[x] + multiset(b)[x] + multiset(c)[x]
  {
    assert multiset(a + b + c) == multiset(a) + multiset(b) + multiset(c);
  }

  /** Nothing is de-duplicated: the concatenation is as long as all batches together. */
  function TotalLength<T>(batches: seq<seq<T>>): nat
  {
    if |batches| == 0 then 0 else |batches[0]| + TotalLength(batches[1..])
  }

  lemma {:induction false} FlattenLength<T>(batches: seq<seq<T>>)
    ensures |Flatten(batches)| == TotalLength(batches)
  {
    if |batches| > 0 {
      FlattenLength(batches[1..]);
    }
  }
}
