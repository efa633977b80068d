/** Topic names and filters of upaho/client.py: `str.split('/')` into
    levels, and `_topic_matches`, which decides which message callback a
    message goes to. */
module MqttTopics {
  import opened Wrappers
  import opened Bytes

  const SLASH: byte := 0x2F
  /** The single-level wildcard `+`. */
  const PLUS: bytes := [0x2B]
  /** The multi-level wildcard `#`. */
  const HASH: bytes := [0x23]

  // ---------------------------------------------------------------------
  // Levels

  /** The first separator in `s`. */
  function FirstSlash(s: bytes): (i: nat)
    requires SLASH in s
    ensures i < |s| && s[i] == SLASH && SLASH !in s[..i]
  {
    if s[0] == SLASH then 0
    else
      assert SLASH in s[1..] by {
        var k :| 0 <= k < |s| && s[k] == SLASH;
        assert s[1..][k - 1] == SLASH;
      }
      var j := FirstSlash(s[1..]);
      assert s[..j + 1] == [s[0]] + s[1..][..j];
      1 + j
  }

  /** `s.split('/')`: always at least one level, none holding a separator. */
  function Levels(s: bytes): (r: seq<bytes>)
    ensures |r| >= 1 && forall k :: 0 <= k < |r| ==> SLASH !in r[k]
    decreases |s|
  {
    if SLASH !in s then [s]
    else
      var i := FirstSlash(s);
      [s[..i]] + Levels(s[i + 1..])
  }

  /** `'/'.join(levels)`. */
  function Join(ls: seq<bytes>): bytes
    requires |ls| >= 1
  {
    if |ls| == 1 then ls[0] else ls[0] + [SLASH] + Join(ls[1..])
  }

  /** Splitting loses nothing: joining the levels gives the topic back. */
  lemma {:induction false} JoinLevels(s: bytes)
    ensures Join(Levels(s)) == s
    decreases |s|
  {
    if SLASH in s {
      var i := FirstSlash(s);
      var rest := Levels(s[i + 1..]);
      JoinLevels(s[i + 1..]);
      assert Levels(s) == [s[..i]] + rest;
      assert ([s[..i]] + rest)[1..] == rest;
      assert s == s[..i] + [SLASH] + s[i + 1..];
    }
  }

  /** And levels without separators split back out of their join. */
  lemma {:induction false} LevelsJoin(ls: seq<bytes>)
    requires |ls| >= 1 && forall k :: 0 <= k < |ls| ==> SLASH !in ls[k]
    ensures Levels(Join(ls)) == ls
  {
    if |ls| > 1 {
      LevelsJoin(ls[1..]);
      LevelsCons(ls[0], Join(ls[1..]));
      assert ls == [ls[0]] + ls[1..];
    } else {
      assert SLASH !in ls[0];
    }
  }

  /** A first level without separators splits off its join. */
  lemma LevelsCons(a: bytes, t: bytes)
    requires SLASH !in a
    ensures Levels(a + [SLASH] + t) == [a] + Levels(t)
  {
    var s := a + [SLASH] + t;
    var n := |a|;
    assert s[n] == SLASH && s[..n] == a && s[n + 1..] == t;
  }

  // ---------------------------------------------------------------------
  // Matching

  /** `_topic_matches` on the levels of a filter and of a topic, as
      written: the walk stops when either side runs out, so `#` matches only
      while a topic level is left. */
  predicate MatchesAsWritten(ps: seq<bytes>, ts: seq<bytes>)
    decreases |ps|
  {
    if |ps| == 0 || |ts| == 0 then |ps| == 0 && |ts| == 0
    else if ps[0] == HASH then true
    else if ps[0] == PLUS || ps[0] == ts[0] then MatchesAsWritten(ps[1..], ts[1..])
    else false
  }

  /** Filter matching with `#` standing for the parent level and any number
      of child levels (section 4.7.1.2 of MQTT v5.0, section 4.7.1.2 of
      MQTT v3.1.1): `sensor/#` also matches `sensor`. */
  predicate Matches(ps: seq<bytes>, ts: seq<bytes>)
    decreases |ps|
  {
    if |ps| == 0 then |ts| == 0
    else if ps[0] == HASH then true
    else if |ts| == 0 then false
    else if ps[0] == PLUS || ps[0] == ts[0] then Matches(ps[1..], ts[1..])
    else false
  }

  /** The index loop of `_topic_matches`, as written. */
  method TopicMatchesAsWritten(pattern: bytes, topic: bytes) returns (m: bool)
    ensures m == MatchesAsWritten(Levels(pattern), Levels(topic))
  {
    var ps := Levels(pattern);
    var ts := Levels(topic);
    var pi := 0;
    var ti := 0;
    while pi < |ps| && ti < |ts|
      invariant pi == ti && pi <= |ps| && ti <= |ts|
      invariant MatchesAsWritten(ps[pi..], ts[ti..]) == MatchesAsWritten(ps, ts)
      decreases |ps| - pi
    {
      assert ps[pi..][0] == ps[pi] && ts[ti..][0] == ts[ti];
      assert ps[pi..][1..] == ps[pi + 1..] && ts[ti..][1..] == ts[ti + 1..];
      if ps[pi] == HASH {
        return true;
      } else if ps[pi] == PLUS {
        pi := pi + 1;
        ti := ti + 1;
      } else if ps[pi] == ts[ti] {
        pi := pi + 1;
        ti := ti + 1;
      } else {
        return false;
      }
    }
    return pi == |ps| && ti == |ts|;
  }

  /** The same loop, with `#` also accepted where the topic has run out. */
  method TopicMatches(pattern: bytes, topic: bytes) returns (m: bool)
    ensures m == Matches(Levels(pattern), Levels(topic))
  {
    var ps := Levels(pattern);
    var ts := Levels(topic);
    var pi := 0;
    var ti := 0;
    while pi < |ps| && ti < |ts|
      invariant pi == ti && pi <= |ps| && ti <= |ts|
      invariant Matches(ps[pi..], ts[ti..]) == Matches(ps, ts)
      decreases |ps| - pi
    {
      assert ps[pi..][0] == ps[pi] && ts[ti..][0] == ts[ti];
      assert ps[pi..][1..] == ps[pi + 1..] && ts[ti..][1..] == ts[ti + 1..];
      if ps[pi] == HASH {
        return true;
      } else if ps[pi] == PLUS {
        pi := pi + 1;
        ti := ti + 1;
      } else if ps[pi] == ts[ti] {
        pi := pi + 1;
        ti := ti + 1;
      } else {
        return false;
      }
    }
    if pi < |ps| {
      assert ps[pi..][0] == ps[pi];
    }
    return (pi == |ps| && ti == |ts|) || (pi < |ps| && ps[pi] == HASH);
  }

  /** Whatever the written loop accepts, the corrected one accepts too. */
  lemma {:induction false} AsWrittenMatches(ps: seq<bytes>, ts: seq<bytes>)
    requires MatchesAsWritten(ps, ts)
    ensures Matches(ps, ts)
    decreases |ps|
  {
    if |ps| > 0 && |ts| > 0 && ps[0] != HASH {
      AsWrittenMatches(ps[1..], ts[1..]);
    }
  }

  /** `sensor/#` and the topic `sensor`: the written loop says no, the
      filter semantics say yes. */
  lemma HashParentLevel()
    ensures Levels([0x73, 0x2F, 0x23]) == [[0x73], HASH]
    ensures Levels([0x73]) == [[0x73]]
    ensures !MatchesAsWritten([[0x73], HASH], [[0x73]])
    ensures Matches([[0x73], HASH], [[0x73]])
  {
    var s: bytes := [0x73, 0x2F, 0x23];
    assert s[0] != SLASH && s[1] == SLASH;
    assert [0x73, 0x2F, 0x23][1..] == [0x2F, 0x23];
    assert FirstSlash(s) == 1;
    assert s[..1] == [0x73];
    assert s[2..] == HASH && SLASH !in HASH;
    assert Levels(s[2..]) == [HASH];
    var f: seq<bytes> := [[0x73], HASH];
    assert f[1..] == [HASH];
  }

  /** A filter level that is neither wildcard. */
  predicate Literal(ps: seq<bytes>)
  {
    forall k :: 0 <= k < |ps| ==> ps[k] != PLUS && ps[k] != HASH
  }

  /** A filter without wildcards matches exactly the topic it spells. */
  lemma {:induction false} LiteralMatches(ps: seq<bytes>, ts: seq<bytes>)
    requires Literal(ps)
    ensures Matches(ps, ts) <==> ps == ts
    ensures MatchesAsWritten(ps, ts) <==> ps == ts
    decreases |ps|
  {
    if |ps| > 0 && |ts| > 0 {
      LiteralMatches(ps[1..], ts[1..]);
      if ps[0] == ts[0] && ps[1..] == ts[1..] {
        assert ps == [ps[0]] + ps[1..] && ts == [ts[0]] + ts[1..];
      }
    }
  }

  /** `prefix/#` matches every topic below `prefix` and, with the filter
      semantics, `prefix` itself; as written, only the topics strictly below. */
  lemma {:induction false} HashMatchesBelow(ps: seq<bytes>, ts: seq<bytes>)
    requires Literal(ps)
    ensures Matches(ps + [HASH], ts) <==> |ts| >= |ps| && ts[..|ps|] == ps
    ensures MatchesAsWritten(ps + [HASH], ts) <==> |ts| > |ps| && ts[..|ps|] == ps
    decreases |ps|
  {
    var f := ps + [HASH];
    if |ps| == 0 {
      assert f == [HASH];
    } else {
      assert f[0] == ps[0] && f[1..] == ps[1..] + [HASH];
      if |ts| > 0 {
        HashMatchesBelow(ps[1..], ts[1..]);
        if |ts| >= |ps| {
          assert ts[..|ps|] == [ts[0]] + ts[1..][..|ps| - 1];
          assert ps == [ps[0]] + ps[1..];
        }
      }
    }
  }

  /** Without `#`, a match pairs the levels one to one: `a/+` does not
      match `a`, nor `a/b/c`. */
  lemma {:induction false} PlusIsOneLevel(ps: seq<bytes>, ts: seq<bytes>)
    requires forall k :: 0 <= k < |ps| ==> ps[k] != HASH
    requires Matches(ps, ts)
    ensures |ps| == |ts|
    decreases |ps|
  {
    if |ps| > 0 {
      PlusIsOneLevel(ps[1..], ts[1..]);
    }
  }

  /** The first callback filter, in the order the filters are kept, that
      the topic matches by the corrected `Matches`. */
  function FirstMatch(patterns: seq<bytes>, topic: bytes): (r: Option<bytes>)
    ensures r.Some? ==> r.value in patterns && Matches(Levels(r.value), Levels(topic))
  {
    if patterns == [] then None
    else if Matches(Levels(patterns[0]), Levels(topic)) then Some(patterns[0])
    else FirstMatch(patterns[1..], topic)
  }

  /** The filter at index `k` matches, and none before it does. */
  predicate FirstAt(patterns: seq<bytes>, topic: bytes, k: int)
  {
    0 <= k < |patterns| && Matches(Levels(patterns[k]), Levels(topic)) &&
    forall j :: 0 <= j < k ==> !Matches(Levels(patterns[j]), Levels(topic))
  }

  /** `None` exactly when no filter matches, and otherwise the filter at
      the first index that matches. */
  lemma {:induction false} FirstMatchSpec(patterns: seq<bytes>, topic: bytes)
    ensures var r := FirstMatch(patterns, topic);
      r.None? <==> forall k :: 0 <= k < |patterns| ==> !Matches(Levels(patterns[k]), Levels(topic))
    ensures var r := FirstMatch(patterns, topic);
      r.Some? ==> exists k :: FirstAt(patterns, topic, k) && patterns[k] == r.value
  {
    if patterns != [] {
      var tail := patterns[1..];
      FirstMatchSpec(tail, topic);
      forall k | 1 <= k < |patterns|
        ensures patterns[k] == tail[k - 1]
      {
      }
      if !Matches(Levels(patterns[0]), Levels(topic)) {
        var r := FirstMatch(tail, topic);
        if r.Some? {
          var k :| FirstAt(tail, topic, k) && tail[k] == r.value;
          assert patterns[k + 1] == r.value;
          assert FirstAt(patterns, topic, k + 1);
        }
      }
    }
  }
}
