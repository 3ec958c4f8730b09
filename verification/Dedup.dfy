/** First-wins deduplication by identity: the shared shape of `dict.setdefault` over an event log. */
module Dedup {
  import opened Seqs

  ghost function Ids<E, K>(log: seq<E>, id: E -> K): set<K> {
    set e | e in log :: id(e)
  }

  /** The events of the log whose identity no earlier event has, in log order. */
  ghost function FirstWins<E, K>(log: seq<E>, id: E -> K): seq<E> {
    if log == [] then []
    else
      var front, last := log[..|log| - 1], log[|log| - 1];
      if id(last) in Ids(front, id) then FirstWins(front, id) else FirstWins(front, id) + [last]
  }

  lemma IdsSnoc<E, K>(log: seq<E>, e: E, id: E -> K)
    ensures Ids(log + [e], id) == Ids(log, id) + {id(e)}
  {
    forall k | k in Ids(log, id) + {id(e)} ensures k in Ids(log + [e], id) {
      if k == id(e) {
        assert e in log + [e];
      } else {
        var x :| x in log && id(x) == k;
        assert x in log + [e];
      }
    }
  }

  lemma FirstWinsSnoc<E, K>(log: seq<E>, e: E, id: E -> K)
    ensures FirstWins(log + [e], id)
         == FirstWins(log, id) + (if id(e) in Ids(log, id) then [] else [e])
  {
    assert (log + [e])[..|log|] == log;
  }

  lemma OneWins<E, K>(e: E, id: E -> K)
    ensures FirstWins([e], id) == [e]
  {
    assert [e] == [] + [e];
    FirstWinsSnoc([], e, id);
  }

  lemma TwoWin<E, K>(a: E, b: E, id: E -> K)
    requires id(a) != id(b)
    ensures FirstWins([a] + [b], id) == [a] + [b]
  {
    OneWins(a, id);
    FirstWinsSnoc([a], b, id);
  }

  /** The loop over the log. The insertion-ordered dictionary `unique` is kept as the sequence of
      its values with the set of its keys. */
  method Deduplicate<E, K(==)>(log: seq<E>, id: E -> K) returns (unique: seq<E>, duplicates: nat)
    ensures unique == FirstWins(log, id)
    ensures |unique| + duplicates == |log|
  {
    unique, duplicates := [], 0;
    var keys: set<K> := {};
    for i := 0 to |log|
      invariant unique == FirstWins(log[..i], id)
      invariant keys == Ids(log[..i], id)
      invariant |unique| + duplicates == i
    {
      var key := id(log[i]);
      FirstWinsSnoc(log[..i], log[i], id);
      IdsSnoc(log[..i], log[i], id);
      assert log[..i + 1] == log[..i] + [log[i]];
      if key in keys {
        duplicates := duplicates + 1;
      } else {
        keys := keys + {key};
        unique := unique + [log[i]];
      }
    }
    assert log[..|log|] == log;
  }

  /** Appending to the log appends to the survivors: only later events of new identity come in. */
  lemma {:induction false} FirstWinsAppend<E, K>(log: seq<E>, more: seq<E>, id: E -> K)
    returns (added: seq<E>)
    ensures FirstWins(log + more, id) == FirstWins(log, id) + added
    ensures forall e :: e in added ==> e in more && id(e) !in Ids(log, id)
    ensures |added| <= |more|
  {
    if more == [] {
      assert log + more == log;
      added := [];
    } else {
      var front, last := more[..|more| - 1], more[|more| - 1];
      added := FirstWinsAppend(log, front, id);
      assert log + more == (log + front) + [last];
      FirstWinsSnoc(log + front, last, id);
      if id(last) !in Ids(log + front, id) {
        added := added + [last];
      }
    }
  }

  /** The event is in the log, and nothing before it has its identity. */
  ghost predicate First<E, K>(log: seq<E>, id: E -> K, e: E) {
    exists i :: 0 <= i < |log| && log[i] == e && id(e) !in Ids(log[..i], id)
  }

  /** Position k of the log holds the first event of its identity. */
  ghost predicate FirstAt<E(!new), K(!new)>(log: seq<E>, id: E -> K, k: nat) {
    k < |log| && forall j :: 0 <= j < k ==> id(log[j]) != id(log[k])
  }

  lemma FirstWinsAt<E(!new), K(!new)>(log: seq<E>, id: E -> K, e: E)
    ensures e in FirstWins(log, id) <==> exists k: nat :: FirstAt(log, id, k) && log[k] == e
  {
    FirstWinsMembers(log, id, e);
    if i :| 0 <= i < |log| && log[i] == e && id(e) !in Ids(log[..i], id) {
      forall j | 0 <= j < i ensures id(log[j]) != id(log[i]) {
        assert log[j] in log[..i];
      }
      assert FirstAt(log, id, i);
    }
    if k: nat :| FirstAt(log, id, k) && log[k] == e {
      assert id(e) !in Ids(log[..k], id);
    }
  }

  /** What survives is what came first. */
  lemma {:induction false} FirstWinsMembers<E, K>(log: seq<E>, id: E -> K, e: E)
    ensures e in FirstWins(log, id) <==> First(log, id, e)
    ensures e in FirstWins(log, id) ==> e in log
  {
    if log != [] {
      hide First;
      var front, last := log[..|log| - 1], log[|log| - 1];
      FirstWinsMembers(front, id, e);
      assert log == front + [last];
      FirstIndexSnoc(front, last, e, id);
    }
  }

  /** One event survives for every identity in the log. */
  lemma {:induction false} FirstWinsCorrect<E, K>(log: seq<E>, id: E -> K)
    ensures Distinct(Map(FirstWins(log, id), id))
    ensures Ids(FirstWins(log, id), id) == Ids(log, id)
  {
    if log != [] {
      var front, last := log[..|log| - 1], log[|log| - 1];
      var kept := FirstWins(front, id);
      FirstWinsCorrect(front, id);
      assert log == front + [last];
      IdsSnoc(front, last, id);
      IdsSnoc(kept, last, id);
      if id(last) !in Ids(front, id) {
        forall i | 0 <= i < |kept| ensures id(kept[i]) != id(last) {
          assert id(kept[i]) in Ids(kept, id);
        }
        DistinctSnoc(Map(kept, id), id(last));
        assert Map(FirstWins(log, id), id) == Map(kept, id) + [id(last)];
      }
    }
  }

  lemma DistinctSnoc<T>(s: seq<T>, x: T)
    requires Distinct(s) && forall i :: 0 <= i < |s| ==> s[i] != x
    ensures Distinct(s + [x])
  {
  }

  lemma FirstIndexSnoc<E, K>(front: seq<E>, last: E, e: E, id: E -> K)
    ensures First(front + [last], id, e) <==> First(front, id, e) || (e == last && id(e) !in Ids(front, id))
  {
    var log := front + [last];
    assert log[..|front|] == front && log[|front|] == last;
    forall i | 0 <= i < |front| ensures log[..i] == front[..i] && log[i] == front[i] {
    }
    if i :| 0 <= i < |front| && front[i] == e && id(e) !in Ids(front[..i], id) {
      assert log[i] == e && id(e) !in Ids(log[..i], id);
    }
    if i :| 0 <= i < |log| && log[i] == e && id(e) !in Ids(log[..i], id) && i < |front| {
      assert front[i] == e && id(e) !in Ids(front[..i], id);
    }
  }

  /** A log without repeated identities loses nothing. */
  lemma {:induction false} FirstWinsDistinct<E, K>(log: seq<E>, id: E -> K)
    requires Distinct(Map(log, id))
    ensures FirstWins(log, id) == log
  {
    if log != [] {
      var front, last := log[..|log| - 1], log[|log| - 1];
      assert Map(log, id)[..|front|] == Map(front, id);
      FirstWinsDistinct(front, id);
      forall e | e in front ensures id(e) != id(last) {
        var i :| 0 <= i < |front| && front[i] == e;
        assert Map(log, id)[i] != Map(log, id)[|front|];
      }
      assert log == front + [last];
    }
  }

  /** Nothing is dropped exactly when no identity repeats. */
  lemma {:induction false} NoneRepeated<E, K>(log: seq<E>, id: E -> K)
    ensures |FirstWins(log, id)| <= |log|
    ensures |FirstWins(log, id)| == |log| <==> Distinct(Map(log, id))
  {
    if Distinct(Map(log, id)) {
      FirstWinsDistinct(log, id);
    }
    if log != [] {
      var front, last := log[..|log| - 1], log[|log| - 1];
      NoneRepeated(front, id);
      if |FirstWins(log, id)| == |log| {
        forall i | 0 <= i < |front| ensures id(front[i]) != id(last) {
          assert front[i] in front;
        }
        DistinctSnoc(Map(front, id), id(last));
        assert Map(log, id) == Map(front, id) + [id(last)];
      }
    }
  }

  lemma {:induction false} LongerThanAll(ids: set<string>) returns (n: nat)
    ensures forall id :: id in ids ==> |id| < n
  {
    n := 1;
    if ids != {} {
      var id :| id in ids;
      n := LongerThanAll(ids - {id});
      if n <= |id| {
        n := |id| + 1;
      }
    }
  }

  /** There is always an id nothing has used. */
  lemma NewId(ids: set<string>) returns (id: string)
    ensures id !in ids && id != ""
  {
    var n := LongerThanAll(ids + {""});
    id := seq(n, i => 'x');
  }
}
