/** The cause-chain walk of `redactCause` in `network-errors.ts`. */
module CauseChain {
  import opened Common

  /** A thrown value or a `cause`: an object is known by its identity. */
  datatype Value = Nullish | Text(s: string) | Number(text: string) | OtherPrimitive | Object(id: nat)

  /** What reading `.cause` and `.code` of each object gives; an unreadable property is absent. */
  datatype Heap = Heap(cause: map<nat, Value>, code: map<nat, string>)

  const MAX_DEPTH: nat := 16

  function CauseOf(h: Heap, v: Value): Value {
    if v.Object? && v.id in h.cause then h.cause[v.id] else Nullish
  }

  function CodeOf(h: Heap, v: Value): Option<string> {
    if v.Object? && v.id in h.code then Some(h.code[v.id]) else None
  }

  /** The plain search: the first coded cause within `hops` steps, with no memory of where it has been. */
  function Search(h: Heap, v: Value, hops: nat): Option<string>
    decreases hops
  {
    if hops == 0 || !v.Object? || CauseOf(h, v).Nullish? then None
    else if CodeOf(h, CauseOf(h, v)).Some? then CodeOf(h, CauseOf(h, v))
    else Search(h, CauseOf(h, v), hops - 1)
  }

  /** The `code` field of the redaction. */
  function RedactedCode(h: Heap, err: Value): Option<string> {
    match err
    case Number(text) => Some(text)
    case Object(_) => if CodeOf(h, err).Some? then CodeOf(h, err) else Search(h, err, MAX_DEPTH)
    case _ => None
  }

  /** Objects that only lead to each other and to no code. */
  predicate Closed(h: Heap, seen: set<nat>) {
    forall id :: id in seen ==>
      var c := CauseOf(h, Object(id));
      c.Object? && c.id in seen && CodeOf(h, c).None?
  }

  lemma {:induction false} ClosedFindsNothing(h: Heap, seen: set<nat>, id: nat, hops: nat)
    requires Closed(h, seen) && id in seen
    ensures Search(h, Object(id), hops) == None
    decreases hops
  {
    if hops == 0 {
    } else {
      ClosedFindsNothing(h, seen, CauseOf(h, Object(id)).id, hops - 1);
    }
  }

  /**
   * The walk with its visited set: on any graph of causes, cyclic or not, stopping at a
   * revisit gives the answer of the plain search.
   */
  method RedactCode(h: Heap, err: Value) returns (code: Option<string>)
    ensures code == RedactedCode(h, err)
  {
    if err.Number? {
      return Some(err.text);
    }
    if !err.Object? {
      return None;
    }
    code := CodeOf(h, err);
    if code.Some? {
      return;
    }
    var visited: set<nat>, current := {}, err;
    for depth := 0 to MAX_DEPTH
      invariant Search(h, current, MAX_DEPTH - depth) == Search(h, err, MAX_DEPTH)
      invariant visited != {} ==> current.Object? || !CauseOf(h, current).Object?
      invariant forall id :: id in visited ==>
                  var c := CauseOf(h, Object(id));
                  !c.Nullish? && CodeOf(h, c).None? && (c == current || (c.Object? && c.id in visited))
    {
      if !current.Object? {
        return None;
      }
      if current.id in visited {
        assert Closed(h, visited);
        ClosedFindsNothing(h, visited, current.id, MAX_DEPTH - depth);
        return None;
      }
      visited := visited + {current.id};
      var next := CauseOf(h, current);
      if next.Nullish? {
        return None;
      }
      code := CodeOf(h, next);
      if code.Some? {
        return;
      }
      current := next;
    }
    code := None;
  }

  /** The value `n` steps down the chain. */
  function Nth(h: Heap, v: Value, n: nat): Value {
    if n == 0 then v else CauseOf(h, Nth(h, v, n - 1))
  }

  lemma {:induction false} NthShift(h: Heap, v: Value, n: nat)
    ensures Nth(h, CauseOf(h, v), n) == Nth(h, v, n + 1)
  {
    if n == 0 {
    } else {
      NthShift(h, v, n - 1);
    }
  }

  lemma {:induction false} NullishStays(h: Heap, n: nat)
    ensures Nth(h, Nullish, n) == Nullish
  {
    if n == 0 {
    } else {
      NullishStays(h, n - 1);
    }
  }

  /** No cause at distance 1 to `n` carries a code. */
  predicate Uncoded(h: Heap, v: Value, n: nat) {
    forall k :: 1 <= k <= n ==> CodeOf(h, Nth(h, v, k)).None?
  }

  lemma UncodedCons(h: Heap, v: Value, n: nat)
    requires Uncoded(h, CauseOf(h, v), n) && CodeOf(h, CauseOf(h, v)).None?
    ensures Uncoded(h, v, n + 1)
  {
    forall k | 1 <= k <= n + 1 ensures CodeOf(h, Nth(h, v, k)).None? {
      NthShift(h, v, k - 1);
    }
  }

  lemma NullishUncoded(h: Heap, n: nat)
    ensures Uncoded(h, Nullish, n)
  {
    forall k | 1 <= k <= n ensures CodeOf(h, Nth(h, Nullish, k)).None? {
      NullishStays(h, k);
    }
  }

  /** The search misses no coded cause within its reach and returns the nearest one's code. */
  lemma {:induction false} SearchFindsNearest(h: Heap, v: Value, hops: nat)
    ensures Search(h, v, hops).None? ==> Uncoded(h, v, hops)
    ensures Search(h, v, hops).Some? ==>
              exists n :: 1 <= n <= hops && Search(h, v, hops) == CodeOf(h, Nth(h, v, n)) && Uncoded(h, v, n - 1)
    decreases hops
  {
    var c := CauseOf(h, v);
    NthShift(h, v, 0);
    assert Nth(h, c, 0) == c;
    if hops > 0 && c.Nullish? {
      NullishUncoded(h, hops - 1);
      UncodedCons(h, v, hops - 1);
    } else if hops > 0 && CodeOf(h, c).None? {
      SearchFindsNearest(h, c, hops - 1);
      if Search(h, c, hops - 1).None? {
        UncodedCons(h, v, hops - 1);
      } else {
        var n :| 1 <= n <= hops - 1 && Search(h, c, hops - 1) == CodeOf(h, Nth(h, c, n)) && Uncoded(h, c, n - 1);
        UncodedCons(h, v, n - 1);
        NthShift(h, v, n);
      }
    } else if hops > 0 {
      assert Uncoded(h, v, 0) && Nth(h, v, 1) == c;
    }
  }
}
