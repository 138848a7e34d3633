/** Stock types shared by every module of the model. */
module Prelude {

  datatype Option<+T> = None | Some(value: T) {
    function GetOr(default: T): T {
      match this
      case Some(v) => v
      case None => default
    }
  }

  datatype Result<+T, +E> = Ok(value: T) | Err(error: E)

  /** One octet of a stream, a request body or a file. */
  type byte = b: int | 0 <= b < 256

  const U64_MAX: nat := 0xFFFF_FFFF_FFFF_FFFF
  const U32_MAX: nat := 0xFFFF_FFFF

  /** Rust's `u64`: arithmetic on it must be shown to stay in range. */
  type u64 = n: int | 0 <= n <= U64_MAX

  function Min(a: int, b: int): int {
    if a <= b then a else b
  }

  /** The concatenation of a list of chunks, in order. */
  function Concat<T>(chunks: seq<seq<T>>): seq<T> {
    if chunks == [] then [] else chunks[0] + Concat(chunks[1..])
  }

  lemma {:induction false} ConcatSnoc<T>(chunks: seq<seq<T>>, last: seq<T>)
    ensures Concat(chunks + [last]) == Concat(chunks) + last
  {
    if chunks == [] {
      assert [] + [last] == [last];
    } else {
      assert (chunks + [last])[1..] == chunks[1..] + [last];
      ConcatSnoc(chunks[1..], last);
    }
  }

  lemma Regroup<T>(a: seq<T>, b: seq<T>, c: seq<T>, d: seq<T>)
    ensures a + b + c + d == a + (b + (c + d))
    ensures [] + a == a == a + []
  {
  }

  // ---- lists without repetition ----------------------------------------------------------

  predicate Distinct<T(==)>(s: seq<T>) { forall i, j :: 0 <= i < j < |s| ==> s[i] != s[j] }

  lemma ConsDistinct<T>(head: T, tail: seq<T>)
    ensures Distinct([head] + tail) <==> Distinct(tail) && head !in tail
  {
    var all := [head] + tail;
    assert forall i :: 0 <= i < |tail| ==> all[i + 1] == tail[i];
    if Distinct(tail) && head !in tail {
      forall i, j | 0 <= i < j < |all| ensures all[i] != all[j] {
        assert all[j] == tail[j - 1];
        if i > 0 {
          assert all[i] == tail[i - 1];
        }
      }
    }
    if Distinct(all) {
      forall i, j | 0 <= i < j < |tail| ensures tail[i] != tail[j] {
        assert all[i + 1] == tail[i] && all[j + 1] == tail[j];
      }
      forall i | 0 <= i < |tail| ensures tail[i] != all[0] {
        assert all[i + 1] == tail[i];
      }
    }
  }

  /** Counting the set of elements finds every repetition. */
  lemma {:induction false} CountsDistinct<T>(s: seq<T>)
    ensures |set x | x in s| == |s| <==> Distinct(s)
    ensures |set x | x in s| <= |s|
    decreases |s|
  {
    if s != [] {
      var head, tail := s[0], s[1..];
      assert s == [head] + tail;
      CountsDistinct(tail);
      ConsDistinct(head, tail);
      hide Distinct;
      assert (set x | x in s) == {head} + set x | x in tail;
    }
  }
}
