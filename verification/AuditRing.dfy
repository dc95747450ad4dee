/**
 * The audit log: the circular buffer the program appends to on chain, and the view
 * `audit-log.ts` reorders it into.
 */
module AuditRing {
  import opened Numerals
  import opened Modular

  /** The account data: `head` is the next write position, `count` saturates at capacity. */
  datatype Ring<T> = Ring(entries: seq<T>, head: nat, count: nat)

  /** `AuditLogSuccess::append` and `AuditLogRejected::append`. */
  function Appended<T>(r: Ring<T>, e: T): Ring<T>
    requires |r.entries| > 0
  {
    var capacity := |r.entries|;
    Ring(r.entries[r.head % capacity := e], (r.head + 1) % capacity,
         if r.count < capacity then r.count + 1 else r.count)
  }

  function Zeroed<T>(capacity: nat, zero: T): Ring<T> {
    Ring(seq(capacity, _ => zero), 0, 0)
  }

  /** The account after a history of appends. */
  function AppendAll<T>(capacity: nat, zero: T, log: seq<T>): (r: Ring<T>)
    requires capacity > 0
    ensures |r.entries| == capacity
  {
    if log == [] then Zeroed(capacity, zero)
    else Appended(AppendAll(capacity, zero, log[..|log| - 1]), log[|log| - 1])
  }

  function Order<T>(raw: seq<T>, head: nat, count: nat, capacity: nat): seq<T>
    requires |raw| == capacity
  {
    if count == 0 then []
    else if count < capacity then raw[..count]
    else seq(capacity, i requires 0 <= i < capacity => raw[(head + i) % capacity])
  }

  /** `orderCircularEntries`. */
  method OrderCircularEntries<T>(raw: seq<T>, head: nat, count: nat, capacity: nat) returns (out: seq<T>)
    requires |raw| == capacity
    ensures out == Order(raw, head, count, capacity)
  {
    if count == 0 {
      return [];
    }
    if count < capacity {
      return raw[..count];
    }
    out := [];
    for i := 0 to capacity
      invariant |out| == i && forall k :: 0 <= k < i ==> out[k] == raw[(head + k) % capacity]
    {
      out := out + [raw[(head + i) % capacity]];
    }
  }

  /** The program's account object. */
  class AuditLog<T(0)> {
    const entries: array<T>
    var head: nat
    var count: nat

    ghost function View(): Ring<T>
      reads this, entries
    {
      Ring(entries[..], head, count)
    }

    constructor (capacity: nat)
      requires capacity > 0
      ensures entries.Length == capacity && fresh(entries) && head == 0 && count == 0
    {
      entries := new T[capacity];
      head, count := 0, 0;
    }

    method Append(e: T)
      requires entries.Length > 0
      modifies this, entries
      ensures View() == Appended(old(View()), e)
    {
      var idx := head % entries.Length;
      entries[idx] := e;
      head := (head + 1) % entries.Length;
      if count < entries.Length {
        count := count + 1;
      }
    }
  }

  // ---- Refinement of an append-only log ---------------------------------------------------

  function Min(a: nat, b: nat): nat { if a < b then a else b }

  /** The layout the reader relies on, as a relation to the append-only log. */
  predicate Layout<T(==)>(r: Ring<T>, log: seq<T>) {
    var capacity, n := |r.entries|, |log|;
    && capacity > 0 && r.head == n % capacity && r.count == Min(n, capacity)
    && forall i :: n - r.count <= i < n ==> r.entries[i % capacity] == log[i]
  }

  lemma AppendSlot<T>(r: Ring<T>, log: seq<T>, e: T, i: nat)
    requires Layout(r, log) && |log| + 1 - Appended(r, e).count <= i <= |log|
    ensures Appended(r, e).entries[i % |r.entries|] == (log + [e])[i]
  {
    var m, n := |r.entries|, |log|;
    ShortMod(n, m);
    if i < n {
      SlotsDiffer(i, n, m);
      assert r.entries[i % m] == log[i];
    }
  }

  lemma AppendKeepsLayout<T>(r: Ring<T>, log: seq<T>, e: T)
    requires Layout(r, log)
    ensures Layout(Appended(r, e), log + [e])
  {
    AddMod(|log|, 1, |r.entries|);
    forall i | |log| + 1 - Appended(r, e).count <= i < |log| + 1
      ensures Appended(r, e).entries[i % |r.entries|] == (log + [e])[i]
    {
      AppendSlot(r, log, e, i);
    }
  }

  lemma ShortMod(n: nat, m: nat)
    requires m > 0
    ensures n % m % m == n % m
  {
    DivModUnique(0, n % m, m);
  }

  /** The documented layout holds after any number of appends. */
  lemma {:induction false} LayoutHolds<T>(capacity: nat, zero: T, log: seq<T>)
    requires capacity > 0
    ensures Layout(AppendAll(capacity, zero, log), log)
  {
    if log == [] {
      DivModUnique(0, 0, capacity);
    } else {
      var init := log[..|log| - 1];
      LayoutHolds(capacity, zero, init);
      AppendKeepsLayout(AppendAll(capacity, zero, init), init, log[|log| - 1]);
      assert log == init + [log[|log| - 1]];
    }
  }

  /** The last `capacity` entries of a log. */
  function Tail<T>(log: seq<T>, capacity: nat): seq<T> {
    if |log| <= capacity then log else log[|log| - capacity..]
  }

  lemma OrderIsTail<T>(r: Ring<T>, log: seq<T>)
    requires Layout(r, log)
    ensures Order(r.entries, r.head, r.count, |r.entries|) == Tail(log, |r.entries|)
  {
    var m, n := |r.entries|, |log|;
    if n < m {
      forall i | 0 <= i < n ensures r.entries[i] == log[i] {
        DivModUnique(0, i, m);
        assert r.entries[i % m] == log[i];
      }
    } else {
      var out := Order(r.entries, r.head, r.count, m);
      forall i | 0 <= i < m ensures out[i] == log[n - m + i] {
        AddMod(n, i, m);
        AddLap(n - m + i, m);
        assert r.entries[(n - m + i) % m] == log[n - m + i];
      }
      assert |Tail(log, m)| == m;
      assert forall i :: 0 <= i < m ==> Tail(log, m)[i] == log[n - m + i];
    }
  }

  /** The view holds exactly the last `min(n, capacity)` appended entries, oldest first. */
  lemma ViewRefinesLog<T>(capacity: nat, zero: T, log: seq<T>)
    requires capacity > 0
    ensures var r := AppendAll(capacity, zero, log);
            r.count <= capacity && Order(r.entries, r.head, r.count, capacity) == Tail(log, capacity)
  {
    LayoutHolds(capacity, zero, log);
    OrderIsTail(AppendAll(capacity, zero, log), log);
  }
}
