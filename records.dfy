/** A user's tracking record: the dictionary main.py keeps under
    `/users/<user id>`, mapping a network name to the list of addresses
    tracked on it. Python dictionaries remember insertion order, so the
    record is a sequence of entries and a new network goes at the end. */
module Records {
  import opened Optional

  /** Telegram's user id; the store keys on `str(user_id)`, which is
      one-to-one, so the integer itself serves as the key. */
  type UserId = int

  datatype Entry = Entry(network: string, addresses: seq<string>)

  type Record = seq<Entry>

  /** The record's keys, in insertion order. */
  function Networks(r: Record): (ns: seq<string>)
    ensures |ns| == |r|
  {
    if r == [] then [] else [r[0].network] + Networks(r[1..])
  }

  lemma {:induction false} NetworksAt(r: Record, i: int)
    requires 0 <= i < |r|
    ensures Networks(r)[i] == r[i].network
  {
    if i > 0 {
      NetworksAt(r[1..], i - 1);
    }
  }

  /** A dictionary holds each key once. */
  predicate DistinctNetworks(r: Record) {
    forall i, j :: 0 <= i < j < |r| ==> r[i].network != r[j].network
  }

  /** `record.get(n)`: the addresses stored under `n`, if `n` is a key. */
  function Lookup(r: Record, n: string): (l: Option<seq<string>>)
    ensures l.None? <==> n !in Networks(r)
  {
    if r == [] then None
    else if r[0].network == n then Some(r[0].addresses)
    else Lookup(r[1..], n)
  }

  /** `record.setdefault(n, []).append(a)`: `a` goes, unchecked and without
      deduplication, at the end of the list for `n`, which is created empty
      at the end of the record when `n` is not yet a key. Every other key
      keeps its list, and the key order is kept. */
  function AppendAddress(r: Record, n: string, a: string): (r': Record)
    ensures Lookup(r', n) == Some(Lookup(r, n).GetOr([]) + [a])
    ensures forall m :: m != n ==> Lookup(r', m) == Lookup(r, m)
    ensures Networks(r') == if n in Networks(r) then Networks(r) else Networks(r) + [n]
  {
    if r == [] then
      assert [] + [a] == [a];
      [Entry(n, [a])]
    else if r[0].network == n then [Entry(n, r[0].addresses + [a])] + r[1..]
    else [r[0]] + AppendAddress(r[1..], n, a)
  }

  /** What a stored record always looks like: the store never holds an
      empty record, a network name that is empty (the guard refuses it) or
      an empty address list (a list is created only to be appended to). */
  predicate Stored(r: Record) {
    && r != []
    && DistinctNetworks(r)
    && forall i :: 0 <= i < |r| ==> r[i].network != "" && r[i].addresses != []
  }

  /** A submission to a non-empty network turns a missing record, or a
      well-formed one, into a well-formed record. */
  lemma {:induction false} AppendAddressKeepsStored(r: Record, n: string, a: string)
    requires r == [] || Stored(r)
    requires n != ""
    ensures Stored(AppendAddress(r, n, a))
  {
    if r == [] {
      assert Networks([]) == [];
      StoredCons(Entry(n, [a]), []);
    } else {
      StoredTail(r);
      HeadNotInTail(r);
      if r[0].network == n {
        StoredCons(Entry(n, r[0].addresses + [a]), r[1..]);
      } else {
        AppendAddressKeepsStored(r[1..], n, a);
        StoredCons(r[0], AppendAddress(r[1..], n, a));
      }
    }
  }

  lemma StoredTail(r: Record)
    requires Stored(r)
    ensures r[1..] == [] || Stored(r[1..])
  {
    assert forall i :: 0 <= i < |r| - 1 ==> r[1..][i] == r[i + 1];
  }

  lemma HeadNotInTail(r: Record)
    requires r != [] && DistinctNetworks(r)
    ensures r[0].network !in Networks(r[1..])
  {
    forall j | 0 <= j < |r| - 1
      ensures Networks(r[1..])[j] != r[0].network
    {
      NetworksAt(r[1..], j);
    }
  }

  /** An entry whose network is new, non-empty and has addresses can be put
      in front of a well-formed (or empty) record. */
  lemma StoredCons(e: Entry, t: Record)
    requires t == [] || Stored(t)
    requires e.network != "" && e.addresses != [] && e.network !in Networks(t)
    ensures Stored([e] + t)
  {
    DistinctCons(e, t);
  }

  /** Putting an entry whose network is not yet a key in front keeps the keys distinct. */
  lemma DistinctCons(e: Entry, t: Record)
    requires DistinctNetworks(t) && e.network !in Networks(t)
    ensures DistinctNetworks([e] + t)
  {
    var r := [e] + t;
    forall i, j | 0 <= i < j < |r|
      ensures r[i].network != r[j].network
    {
      if i == 0 {
        NetworksAt(t, j - 1);
      }
    }
  }

  /** Successive submissions of `addrs` while `n` stays the pending network. */
  function AppendAll(r: Record, n: string, addrs: seq<string>): Record
    decreases |addrs|
  {
    if addrs == [] then r else AppendAll(AppendAddress(r, n, addrs[0]), n, addrs[1..])
  }

  /** Successive submissions to `n` append all of them to its list, in
      order and duplicates included. */
  lemma {:induction false} AppendAllLookup(r: Record, n: string, addrs: seq<string>)
    requires addrs != []
    ensures Lookup(AppendAll(r, n, addrs), n) == Some(Lookup(r, n).GetOr([]) + addrs)
    decreases |addrs|
  {
    var r1 := AppendAddress(r, n, addrs[0]);
    var before := Lookup(r, n).GetOr([]);
    if |addrs| == 1 {
      assert AppendAll(r, n, addrs) == r1;
      assert addrs == [addrs[0]];
    } else {
      AppendAllLookup(r1, n, addrs[1..]);
      SplitFirst(before, addrs);
    }
  }

  lemma SplitFirst(before: seq<string>, addrs: seq<string>)
    requires addrs != []
    ensures before + [addrs[0]] + addrs[1..] == before + addrs
  {
    assert addrs == [addrs[0]] + addrs[1..];
  }

  /** Successive submissions to `n` leave the list of every other network as it was. */
  lemma {:induction false} AppendAllOther(r: Record, n: string, addrs: seq<string>, m: string)
    requires m != n
    ensures Lookup(AppendAll(r, n, addrs), m) == Lookup(r, m)
    decreases |addrs|
  {
    if addrs != [] {
      AppendAllOther(AppendAddress(r, n, addrs[0]), n, addrs[1..], m);
    }
  }

  /** Appending to a network that is not yet a key adds a one-address entry at the end. */
  lemma {:induction false} AppendNew(r: Record, n: string, a: string)
    requires n !in Networks(r)
    ensures AppendAddress(r, n, a) == r + [Entry(n, [a])]
  {
    if r != [] {
      assert Networks(r) == [r[0].network] + Networks(r[1..]);
      AppendNew(r[1..], n, a);
      ConsSnoc(r, Entry(n, [a]));
    }
  }

  /** Appending to the network of the last entry extends that entry. */
  lemma {:induction false} AppendLast(r: Record, n: string, xs: seq<string>, a: string)
    requires n !in Networks(r)
    ensures AppendAddress(r + [Entry(n, xs)], n, a) == r + [Entry(n, xs + [a])]
  {
    if r == [] {
      assert [] + [Entry(n, xs)] == [Entry(n, xs)];
      assert [] + [Entry(n, xs + [a])] == [Entry(n, xs + [a])];
    } else {
      assert Networks(r) == [r[0].network] + Networks(r[1..]);
      AppendLast(r[1..], n, xs, a);
      SnocTail(r, Entry(n, xs));
      ConsSnoc(r, Entry(n, xs + [a]));
    }
  }

  lemma ConsSnoc(r: Record, e: Entry)
    requires r != []
    ensures [r[0]] + (r[1..] + [e]) == r + [e]
  {
    assert r == [r[0]] + r[1..];
  }

  lemma SnocTail(r: Record, e: Entry)
    requires r != []
    ensures (r + [e])[0] == r[0] && (r + [e])[1..] == r[1..] + [e]
  {
  }

  lemma {:induction false} AppendAllLast(r: Record, n: string, xs: seq<string>, ys: seq<string>)
    requires n !in Networks(r)
    ensures AppendAll(r + [Entry(n, xs)], n, ys) == r + [Entry(n, xs + ys)]
    decreases |ys|
  {
    if ys == [] {
      assert xs + ys == xs;
    } else {
      AppendLast(r, n, xs, ys[0]);
      AppendAllLast(r, n, xs + [ys[0]], ys[1..]);
      assert xs + [ys[0]] + ys[1..] == xs + ys;
    }
  }

  /** Submitting a1..ak to n1 and then b1..bm to n2 (k, m > 0) from a missing
      record yields exactly {n1: [a1..ak], n2: [b1..bm]}, in that order. */
  lemma TwoNetworks(n1: string, addrs: seq<string>, n2: string, bs: seq<string>)
    requires n1 != n2 && addrs != [] && bs != []
    ensures AppendAll(AppendAll([], n1, addrs), n2, bs) == [Entry(n1, addrs), Entry(n2, bs)]
  {
    var r := [Entry(n1, addrs)];
    assert AppendAll([], n1, addrs) == r by {
      AppendAllNew([], n1, addrs);
      assert [] + r == r;
    }
    assert Networks(r) == [n1] by {
      assert r[1..] == [];
    }
    assert AppendAll(r, n2, bs) == r + [Entry(n2, bs)] by {
      AppendAllNew(r, n2, bs);
    }
    assert r + [Entry(n2, bs)] == [Entry(n1, addrs), Entry(n2, bs)];
  }

  /** Submissions to a network that is not yet a key create its entry at the end. */
  lemma AppendAllNew(r: Record, n: string, addrs: seq<string>)
    requires n !in Networks(r) && addrs != []
    ensures AppendAll(r, n, addrs) == r + [Entry(n, addrs)]
  {
    AppendNew(r, n, addrs[0]);
    AppendAllLast(r, n, [addrs[0]], addrs[1..]);
    assert [addrs[0]] + addrs[1..] == addrs;
  }
}
