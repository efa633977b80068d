/** The non-blocking sensor adapter base of device/ticle/src/ext/nb_impl.py:
    quantity codes, samples, a subscriber list and a last sample per
    quantity, and the statistics `update_once` keeps. Callbacks are named
    by identifiers; calling one is recorded as a delivery. */
module Sensors {
  import opened Wrappers

  /** `Q(dom, id)`: the domain in the upper byte, the detail in the lower. */
  function Q(dom: nat, id: nat): nat
    requires id < 256
  {
    dom * 256 + id
  }

  /** A quantity code gives back its domain and its detail, so distinct
      pairs never share a code. */
  lemma QDecodes(dom: nat, id: nat)
    requires id < 256
    ensures Q(dom, id) / 256 == dom && Q(dom, id) % 256 == id
  {
  }

  lemma QInjective(d1: nat, i1: nat, d2: nat, i2: nat)
    requires i1 < 256 && i2 < 256 && Q(d1, i1) == Q(d2, i2)
    ensures d1 == d2 && i1 == i2
  {
    QDecodes(d1, i1);
    QDecodes(d2, i2);
  }

  const DOM_INPUT: nat := 7
  const Q_BTN_STATE: nat := Q(DOM_INPUT, 1)
  const Q_BTN_EVENT: nat := Q(DOM_INPUT, 2)

  const U_NONE: int := 0
  const F_SENSOR: int := 1

  /** Status and error codes. */
  const OK: int := 0
  const BUS_ERR: int := 4

  /** A reading. The shape of every sample in this model is the scalar `()`,
      and the value an integer. */
  datatype Sample = Sample(qty: int, unit: int, frame: int, value: int, status: int, src: string)

  /** One call of a subscriber with a sample. */
  datatype Delivery = Delivery(cb: nat, sample: Sample)

  /** The calls `_emit` makes: every subscriber in list order. */
  function Deliveries(cbs: seq<nat>, s: Sample): (r: seq<Delivery>)
    ensures |r| == |cbs| && forall k :: 0 <= k < |cbs| ==> r[k] == Delivery(cbs[k], s)
  {
    seq(|cbs|, k requires 0 <= k < |cbs| => Delivery(cbs[k], s))
  }

  /** `dict.get(qty, ())` on the subscriber lists. */
  function SubsOf(subs: map<int, seq<nat>>, qty: int): seq<nat>
  {
    if qty in subs then subs[qty] else []
  }

  /** No callback is listed twice. */
  predicate NoDup(s: seq<nat>)
  {
    forall i, j :: 0 <= i < j < |s| ==> s[i] != s[j]
  }

  /** `list.remove`: the first occurrence goes; a missing value is left
      alone (the `ValueError` is swallowed). */
  function RemoveFirst(s: seq<nat>, x: nat): seq<nat>
  {
    if s == [] then []
    else if s[0] == x then s[1..]
    else [s[0]] + RemoveFirst(s[1..], x)
  }

  lemma {:induction false} RemoveFirstMultiset(s: seq<nat>, x: nat)
    ensures multiset(RemoveFirst(s, x)) == multiset(s) - multiset{x}
  {
    if s != [] {
      assert s == [s[0]] + s[1..];
      if s[0] != x {
        RemoveFirstMultiset(s[1..], x);
      }
    }
  }

  /** The subscriber lists after `subscribe(qty, cb)`. */
  function Subscribed(subs: map<int, seq<nat>>, qty: int, cb: nat): map<int, seq<nat>>
  {
    if qty in subs && cb !in subs[qty] then subs[qty := subs[qty] + [cb]] else subs
  }

  /** The subscriber lists after `unsubscribe(qty, cb)`. */
  function Unsubscribed(subs: map<int, seq<nat>>, qty: int, cb: nat): map<int, seq<nat>>
  {
    if qty in subs then subs[qty := RemoveFirst(subs[qty], cb)] else subs
  }

  /** Every list is free of repeats. */
  predicate ListsNoDup(subs: map<int, seq<nat>>)
  {
    forall q :: q in subs ==> NoDup(subs[q])
  }

  /** After `subscribe`, a known quantity lists the callback exactly once,
      the other lists are untouched, and no quantity is added. */
  lemma SubscribeMeaning(subs: map<int, seq<nat>>, qty: int, cb: nat)
    requires ListsNoDup(subs)
    ensures var r := Subscribed(subs, qty, cb);
      r.Keys == subs.Keys && ListsNoDup(r)
      && (qty in subs ==> cb in r[qty] && multiset(r[qty])[cb] == 1)
      && forall q :: q in subs && q != qty ==> r[q] == subs[q]
  {
    var r := Subscribed(subs, qty, cb);
    if qty in subs {
      var l := r[qty];
      if cb !in subs[qty] {
        assert l == subs[qty] + [cb];
        assert NoDup(l) by {
          forall i, j | 0 <= i < j < |l|
            ensures l[i] != l[j]
          {
            if j == |l| - 1 {
              assert l[i] == subs[qty][i];
            }
          }
        }
      }
      NoDupCount(l, cb);
    }
  }

  lemma {:induction false} NoDupCount(s: seq<nat>, x: nat)
    requires NoDup(s) && x in s
    ensures multiset(s)[x] == 1
  {
    assert s == [s[0]] + s[1..];
    assert NoDup(s[1..]) by {
      forall i, j | 0 <= i < j < |s[1..]|
        ensures s[1..][i] != s[1..][j]
      {
        assert s[1..][i] == s[i + 1] && s[1..][j] == s[j + 1];
      }
    }
    if s[0] == x {
      assert x !in s[1..] by {
        forall k | 0 <= k < |s[1..]|
          ensures s[1..][k] != x
        {
          assert s[1..][k] == s[k + 1];
        }
      }
    } else {
      NoDupCount(s[1..], x);
    }
  }

  /** Subscribing twice is subscribing once. */
  lemma SubscribeIdempotent(subs: map<int, seq<nat>>, qty: int, cb: nat)
    ensures Subscribed(Subscribed(subs, qty, cb), qty, cb) == Subscribed(subs, qty, cb)
  {
  }

  /** After `unsubscribe`, the callback is gone from a list without
      repeats; nothing else is removed, and the other lists are untouched. */
  lemma UnsubscribeMeaning(subs: map<int, seq<nat>>, qty: int, cb: nat)
    requires ListsNoDup(subs)
    ensures var r := Unsubscribed(subs, qty, cb);
      r.Keys == subs.Keys
      && (qty in subs ==> cb !in r[qty] && multiset(r[qty]) == multiset(subs[qty]) - multiset{cb})
      && forall q :: q in subs && q != qty ==> r[q] == subs[q]
  {
    if qty in subs {
      var l := subs[qty];
      RemoveFirstMultiset(l, cb);
      if cb in l {
        NoDupCount(l, cb);
      }
      assert multiset(RemoveFirst(l, cb))[cb] == 0;
    }
  }

  /** Unsubscribing a callback that was just subscribed restores the lists. */
  lemma UnsubscribeUndoesSubscribe(subs: map<int, seq<nat>>, qty: int, cb: nat)
    requires qty in subs && cb !in subs[qty]
    ensures Unsubscribed(Subscribed(subs, qty, cb), qty, cb) == subs
  {
    RemoveLast(subs[qty], cb);
  }

  lemma {:induction false} RemoveLast(s: seq<nat>, x: nat)
    requires x !in s
    ensures RemoveFirst(s + [x], x) == s
  {
    if s != [] {
      assert (s + [x])[1..] == s[1..] + [x];
      RemoveLast(s[1..], x);
      assert s == [s[0]] + s[1..];
    }
  }

  /** The part of the adapter that samples go through: the subscriber
      lists, the last sample per quantity, and the calls made so far. */
  datatype Hub = Hub(subs: map<int, seq<nat>>, last: map<int, Option<Sample>>, delivered: seq<Delivery>)

  /** `_emit`: the sample becomes the last one of its quantity, known or
      not, and every subscriber of the quantity is called with it. */
  function Emitted(h: Hub, s: Sample): Hub
  {
    h.(last := h.last[s.qty := Some(s)], delivered := h.delivered + Deliveries(SubsOf(h.subs, s.qty), s))
  }

  /** A run of `_emit` calls. */
  function EmitAll(h: Hub, ss: seq<Sample>): Hub
    decreases |ss|
  {
    if ss == [] then h else Emitted(EmitAll(h, ss[..|ss| - 1]), ss[|ss| - 1])
  }

  lemma EmitAllSnoc(h: Hub, ss: seq<Sample>, s: Sample)
    ensures EmitAll(h, ss + [s]) == Emitted(EmitAll(h, ss), s)
  {
    assert (ss + [s])[..|ss|] == ss;
  }

  /** Emitting leaves the subscriber lists alone, and the last sample of a
      quantity is the last one emitted for it. */
  lemma {:induction false} EmitAllLast(h: Hub, ss: seq<Sample>, k: nat)
    requires k < |ss| && forall j :: k < j < |ss| ==> ss[j].qty != ss[k].qty
    ensures EmitAll(h, ss).subs == h.subs
    ensures ss[k].qty in EmitAll(h, ss).last && EmitAll(h, ss).last[ss[k].qty] == Some(ss[k])
    decreases |ss|
  {
    EmitAllSubs(h, ss[..|ss| - 1]);
    if k < |ss| - 1 {
      EmitAllLast(h, ss[..|ss| - 1], k);
    }
  }

  lemma {:induction false} EmitAllSubs(h: Hub, ss: seq<Sample>)
    ensures EmitAll(h, ss).subs == h.subs
    decreases |ss|
  {
    if ss != [] {
      EmitAllSubs(h, ss[..|ss| - 1]);
    }
  }

  /** An adapter: `NBAdapterBase` with its statistics. `avg_us` is a float
      and is not kept. */
  class Adapter {
    var subs: map<int, seq<nat>>
    var last: map<int, Option<Sample>>
    var delivered: seq<Delivery>
    var readCount: nat
    var failCount: nat
    var skipCount: nat
    var maxUs: int
    var lastErr: int

    function HubState(): Hub
      reads this
    {
      Hub(subs, last, delivered)
    }

    /** Every list is free of repeats. */
    predicate Valid()
      reads this
    {
      ListsNoDup(subs)
    }

    /** A new adapter: an empty list and no sample for every channel. */
    constructor (channels: seq<int>)
      ensures Valid()
      ensures subs.Keys == last.Keys == set q | q in channels
      ensures forall q :: q in subs ==> subs[q] == [] && last[q] == None
      ensures delivered == [] && readCount == 0 && failCount == 0 && skipCount == 0 && maxUs == 0 && lastErr == OK
    {
      subs := map q | q in channels :: [];
      last := map q | q in channels :: None;
      delivered := [];
      readCount := 0;
      failCount := 0;
      skipCount := 0;
      maxUs := 0;
      lastErr := OK;
    }

    /** `subscribe`. */
    method Subscribe(qty: int, cb: nat)
      requires Valid()
      modifies this
      ensures Valid() && subs == Subscribed(old(subs), qty, cb)
      ensures last == old(last) && delivered == old(delivered)
      ensures readCount == old(readCount) && failCount == old(failCount) && skipCount == old(skipCount)
      ensures maxUs == old(maxUs) && lastErr == old(lastErr)
    {
      SubscribeMeaning(subs, qty, cb);
      if qty in subs && cb !in subs[qty] {
        subs := subs[qty := subs[qty] + [cb]];
      }
    }

    /** `unsubscribe`. */
    method Unsubscribe(qty: int, cb: nat)
      requires Valid()
      modifies this
      ensures Valid() && subs == Unsubscribed(old(subs), qty, cb)
      ensures last == old(last) && delivered == old(delivered)
      ensures readCount == old(readCount) && failCount == old(failCount) && skipCount == old(skipCount)
      ensures maxUs == old(maxUs) && lastErr == old(lastErr)
    {
      if qty in subs {
        RemoveFirstKeepsNoDup(subs[qty], cb);
        subs := subs[qty := RemoveFirst(subs[qty], cb)];
      }
    }

    /** `last`: the latest sample of the quantity; none for a quantity
        without one or unknown to the adapter. */
    function Last(qty: int): (r: Option<Sample>)
      reads this
      ensures r.Some? ==> qty in last && last[qty] == r
    {
      if qty in last then last[qty] else None
    }

    /** `_emit`: the sample is stored as the last one before any
        subscriber runs, then each subscriber is called in order. */
    method Emit(s: Sample)
      modifies this
      ensures HubState() == Emitted(old(HubState()), s)
      ensures readCount == old(readCount) && failCount == old(failCount) && skipCount == old(skipCount)
      ensures maxUs == old(maxUs) && lastErr == old(lastErr)
    {
      last := last[s.qty := Some(s)];
      var cbs := SubsOf(subs, s.qty);
      var i := 0;
      while i < |cbs|
        invariant 0 <= i <= |cbs|
        invariant delivered == old(delivered) + Deliveries(cbs[..i], s)
        invariant subs == old(subs) && last == old(last)[s.qty := Some(s)]
        invariant readCount == old(readCount) && failCount == old(failCount) && skipCount == old(skipCount)
        invariant maxUs == old(maxUs) && lastErr == old(lastErr)
      {
        delivered := delivered + [Delivery(cbs[i], s)];
        assert Deliveries(cbs[..i + 1], s) == Deliveries(cbs[..i], s) + [Delivery(cbs[i], s)];
        i := i + 1;
      }
      assert cbs[..i] == cbs;
    }

    /** `update_once` after the driver's own update has run: `outcome` is
        its result, or none when it raised; `dtUs` is the time it took. */
    method UpdateOnce(outcome: Option<bool>, dtUs: int) returns (ok: bool)
      modifies this
      ensures HubState() == old(HubState()) && skipCount == old(skipCount)
      ensures outcome.None? ==> !ok && failCount == old(failCount) + 1 && lastErr == BUS_ERR
      ensures outcome.None? ==> readCount == old(readCount) && maxUs == old(maxUs)
      ensures outcome.Some? ==> ok == outcome.value && readCount == old(readCount) + 1 && lastErr == OK
      ensures outcome.Some? ==> failCount == old(failCount) && maxUs == if dtUs > old(maxUs) then dtUs else old(maxUs)
    {
      if outcome.None? {
        failCount := failCount + 1;
        lastErr := BUS_ERR;
        return false;
      }
      ok := outcome.value;
      readCount := readCount + 1;
      if dtUs > maxUs {
        maxUs := dtUs;
      }
      lastErr := OK;
    }
  }

  lemma {:induction false} RemoveFirstKeepsNoDup(s: seq<nat>, x: nat)
    requires NoDup(s)
    ensures NoDup(RemoveFirst(s, x))
  {
    if s != [] && s[0] != x {
      var t := s[1..];
      assert NoDup(t) by {
        forall i, j | 0 <= i < j < |t|
          ensures t[i] != t[j]
        {
          assert t[i] == s[i + 1] && t[j] == s[j + 1];
        }
      }
      RemoveFirstKeepsNoDup(t, x);
      RemoveFirstMultiset(t, x);
      var r := [s[0]] + RemoveFirst(t, x);
      forall i, j | 0 <= i < j < |r|
        ensures r[i] != r[j]
      {
        if i == 0 {
          assert r[j] in multiset(RemoveFirst(t, x));
          assert s[0] !in t by {
            forall k | 0 <= k < |t|
              ensures t[k] != s[0]
            {
              assert t[k] == s[k + 1];
            }
          }
        }
      }
    } else if s != [] {
      assert NoDup(s[1..]) by {
        forall i, j | 0 <= i < j < |s[1..]|
          ensures s[1..][i] != s[1..][j]
        {
          assert s[1..][i] == s[i + 1] && s[1..][j] == s[j + 1];
        }
      }
    }
  }
}
