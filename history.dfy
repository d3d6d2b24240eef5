/** The history list: newest entry first, at most five entries, each entry
    removable by its id (codigo_fonte/src/App.jsx:78-87, 104-106). */
module History {
  import opened Clock

  const MaxEntries: nat := 5

  /** One past calculation. `id` stands for the `Date.now()` stamp. */
  datatype Entry = Entry(id: nat, time1: string, time2: string, operation: string, result: string)

  /** The symbol stored for an operation. */
  function OperationSymbol(op: Operation): (s: string)
    ensures s == "+" || s == "-"
    ensures s == "+" <==> op == Add
  {
    if op == Add then "+" else "-"
  }

  /** The operation a stored symbol stands for; it undoes `OperationSymbol`. */
  function SymbolOperation(s: string): (op: Operation)
    ensures op == Add <==> s == "+"
  {
    if s == "+" then Add else Subtract
  }

  /** Every string stored is an in-range "HH:MM", the symbol is one of the
      two, and the result is what the operation gives on the two times. */
  predicate WellFormed(e: Entry)
  {
    IsClockString(e.time1) && IsClockString(e.time2) && IsClockString(e.result) &&
    (e.operation == "+" || e.operation == "-") &&
    ClockMinutes(e.result) == Compute(SymbolOperation(e.operation), ClockMinutes(e.time1), ClockMinutes(e.time2))
  }

  /** Every entry of `h` is well formed. */
  predicate AllWellFormed(h: seq<Entry>)
  {
    h == [] || (WellFormed(h[0]) && AllWellFormed(h[1..]))
  }

  /** The shape every history the calculator holds keeps. */
  predicate HistoryValid(h: seq<Entry>)
  {
    |h| <= MaxEntries && AllWellFormed(h)
  }

  lemma {:induction false} AllWellFormedAt(h: seq<Entry>, i: nat)
    requires AllWellFormed(h) && i < |h|
    ensures WellFormed(h[i])
  {
    if i > 0 {
      AllWellFormedAt(h[1..], i - 1);
    }
  }

  lemma {:induction false} AllWellFormedPrefix(h: seq<Entry>, k: nat)
    requires AllWellFormed(h) && k <= |h|
    ensures AllWellFormed(h[..k])
  {
    if k > 0 {
      assert h[..k][1..] == h[1..][..k - 1];
      AllWellFormedPrefix(h[1..], k - 1);
    }
  }

  function Min(a: nat, b: nat): (m: nat)
    ensures m <= a && m <= b && (m == a || m == b)
  {
    if a <= b then a else b
  }

  /** `[entry, ...h].slice(0, 5)`. */
  function Prepend(entry: Entry, h: seq<Entry>): (r: seq<Entry>)
    ensures |r| == Min(|h| + 1, MaxEntries)
    ensures r[0] == entry
    ensures r[1..] == h[..Min(|h|, MaxEntries - 1)]
  {
    var all := [entry] + h;
    var r := if |all| <= MaxEntries then all else all[..MaxEntries];
    assert r[1..] == h[..Min(|h|, MaxEntries - 1)];
    r
  }

  /** `h.filter(item => item.id !== id)`. */
  function RemoveById(h: seq<Entry>, id: nat): (r: seq<Entry>)
    ensures |r| <= |h|
    ensures forall e :: e in r <==> e in h && e.id != id
  {
    if h == [] then []
    else if h[0].id == id then RemoveById(h[1..], id)
    else
      var rest := RemoveById(h[1..], id);
      assert forall e :: e in h <==> e == h[0] || e in h[1..];
      [h[0]] + rest
  }

  /** `a` is `b` with some entries left out, the rest in their order. */
  predicate Subsequence(a: seq<Entry>, b: seq<Entry>)
    decreases |b|
  {
    if a == [] then true
    else if b == [] then false
    else if a[0] == b[0] then Subsequence(a[1..], b[1..])
    else Subsequence(a, b[1..])
  }

  // ---- prepending ----

  /** Prepending keeps a history valid when the new entry is well formed. */
  lemma PrependValid(entry: Entry, h: seq<Entry>)
    requires HistoryValid(h) && WellFormed(entry)
    ensures HistoryValid(Prepend(entry, h))
  {
    var r := Prepend(entry, h);
    AllWellFormedPrefix(h, Min(|h|, MaxEntries - 1));
    assert r == [entry] + r[1..];
  }

  /** The history after the calculations `es`, oldest first, on `h`. */
  function PrependAll(h: seq<Entry>, es: seq<Entry>): (r: seq<Entry>)
    decreases |es|
  {
    if es == [] then h else Prepend(es[|es| - 1], PrependAll(h, es[..|es| - 1]))
  }

  function Reversed(s: seq<Entry>): (r: seq<Entry>)
    ensures |r| == |s|
    ensures forall i :: 0 <= i < |s| ==> r[i] == s[|s| - 1 - i]
  {
    if s == [] then [] else [s[|s| - 1]] + Reversed(s[..|s| - 1])
  }

  /** `s.slice(0, n)`. */
  function Take(s: seq<Entry>, n: nat): (r: seq<Entry>)
    ensures |r| == Min(|s|, n) && r == s[..|r|]
  {
    if |s| <= n then s else s[..n]
  }

  /** After any run of calculations the history is the newest entries first,
      then the older history, cut to five. */
  lemma {:induction false} PrependAllTakesNewest(h: seq<Entry>, es: seq<Entry>)
    requires |h| <= MaxEntries
    ensures PrependAll(h, es) == Take(Reversed(es) + h, MaxEntries)
    decreases |es|
  {
    if es != [] {
      var e, front := es[|es| - 1], es[..|es| - 1];
      PrependAllTakesNewest(h, front);
      var older := Reversed(front) + h;
      var p := PrependAll(h, front);
      assert p == Take(older, MaxEntries);
      var r := Prepend(e, p);
      var want := Take(Reversed(es) + h, MaxEntries);
      assert Reversed(es) + h == [e] + older;
      assert |r| == |want|;
      forall i | 0 <= i < |r| ensures r[i] == want[i] {
        if i > 0 {
          assert r[i] == r[1..][i - 1] == p[i - 1];
        }
      }
    }
  }

  /** Five or more calculations leave exactly the five most recent entries,
      newest first, whatever the history held before. */
  lemma FiveNewestRemain(h: seq<Entry>, es: seq<Entry>)
    requires |h| <= MaxEntries && |es| >= MaxEntries
    ensures |PrependAll(h, es)| == MaxEntries
    ensures forall i :: 0 <= i < MaxEntries ==> PrependAll(h, es)[i] == es[|es| - 1 - i]
  {
    PrependAllTakesNewest(h, es);
  }

  // ---- removing ----

  /** Removing an id no entry carries leaves the history as it was. */
  lemma {:induction false} RemoveAbsent(h: seq<Entry>, id: nat)
    requires forall i :: 0 <= i < |h| ==> h[i].id != id
    ensures RemoveById(h, id) == h
  {
    if h != [] {
      RemoveAbsent(h[1..], id);
    }
  }

  /** Removal keeps the other entries in their original order. */
  lemma {:induction false} RemoveKeepsOrder(h: seq<Entry>, id: nat)
    ensures Subsequence(RemoveById(h, id), h)
  {
    if h != [] {
      RemoveKeepsOrder(h[1..], id);
      if h[0].id != id {
        assert RemoveById(h, id)[1..] == RemoveById(h[1..], id);
      } else {
        SubsequenceOfTail(RemoveById(h[1..], id), h);
      }
    }
  }

  lemma {:induction false} SubsequenceOfTail(a: seq<Entry>, b: seq<Entry>)
    requires b != [] && Subsequence(a, b[1..])
    ensures Subsequence(a, b)
    decreases |a| + |b|
  {
    if a != [] && a[0] == b[0] {
      if |b| > 1 {
        SubsequenceDropHead(a, b[1..]);
      } else {
        assert false;
      }
    }
  }

  lemma {:induction false} SubsequenceDropHead(a: seq<Entry>, b: seq<Entry>)
    requires a != [] && Subsequence(a, b)
    ensures Subsequence(a[1..], b)
    decreases |a| + |b|
  {
    if a[0] == b[0] {
      SubsequenceOfTail(a[1..], b);
    } else {
      SubsequenceDropHead(a, b[1..]);
      SubsequenceOfTail(a[1..], b);
    }
  }

  /** Removal keeps every entry with another id as often as it occurred, and
      drops every entry with that id. */
  lemma {:induction false} RemoveCounts(h: seq<Entry>, id: nat, e: Entry)
    ensures multiset(RemoveById(h, id))[e] == if e.id == id then 0 else multiset(h)[e]
  {
    if h != [] {
      RemoveCounts(h[1..], id, e);
      assert h == [h[0]] + h[1..];
      if h[0].id != id {
        assert RemoveById(h, id) == [h[0]] + RemoveById(h[1..], id);
      }
    }
  }

  /** Removing twice removes nothing more. */
  lemma RemoveIdempotent(h: seq<Entry>, id: nat)
    ensures RemoveById(RemoveById(h, id), id) == RemoveById(h, id)
  {
    var r := RemoveById(h, id);
    assert forall i :: 0 <= i < |r| ==> r[i] in r;
    RemoveAbsent(r, id);
  }

  /** Removal keeps every entry well formed. */
  lemma {:induction false} RemoveWellFormed(h: seq<Entry>, id: nat)
    requires AllWellFormed(h)
    ensures AllWellFormed(RemoveById(h, id))
  {
    if h != [] {
      RemoveWellFormed(h[1..], id);
      if h[0].id != id {
        assert RemoveById(h, id)[1..] == RemoveById(h[1..], id);
      }
    }
  }

  /** Removal keeps a history valid. */
  lemma RemoveValid(h: seq<Entry>, id: nat)
    requires HistoryValid(h)
    ensures HistoryValid(RemoveById(h, id))
  {
    RemoveWellFormed(h, id);
  }

  // ---- ids ----

  predicate DistinctIds(h: seq<Entry>)
  {
    forall i, j :: 0 <= i < j < |h| ==> h[i].id != h[j].id
  }

  /** An entry with an id not yet in the history keeps the ids distinct. */
  lemma PrependDistinct(entry: Entry, h: seq<Entry>)
    requires DistinctIds(h)
    requires forall i :: 0 <= i < |h| ==> h[i].id != entry.id
    ensures DistinctIds(Prepend(entry, h))
  {
    var r := Prepend(entry, h);
    forall i, j | 0 <= i < j < |r| ensures r[i].id != r[j].id {
      assert r[j] == r[1..][j - 1] == h[j - 1];
      if i > 0 {
        assert r[i] == r[1..][i - 1] == h[i - 1];
      }
    }
  }

  /** With distinct ids, removing an id that is present removes exactly one
      entry. */
  lemma {:induction false} RemoveUnique(h: seq<Entry>, k: nat)
    requires DistinctIds(h) && k < |h|
    ensures |RemoveById(h, h[k].id)| == |h| - 1
  {
    var id := h[k].id;
    if k == 0 {
      assert DistinctIds(h[1..]);
      forall i | 0 <= i < |h[1..]| ensures h[1..][i].id != id {
        assert h[1..][i] == h[i + 1];
      }
      RemoveAbsent(h[1..], id);
    } else {
      assert DistinctIds(h[1..]);
      assert h[1..][k - 1] == h[k];
      RemoveUnique(h[1..], k - 1);
      assert h[0].id != id;
    }
  }
}
