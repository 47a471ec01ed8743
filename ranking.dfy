/**
 * The agent's ordering of the actions it knows in a state: by Q-value,
 * highest first, actions of equal value keeping the order in which they
 * were registered (the standard library's sort is stable, also when it
 * sorts in reverse). The exploit step draws among the legal actions of the
 * highest value; the Bellman update reads the value of the first ranked
 * action.
 */
module ActionRanking {
  import opened Board

  /** The Q-values of one state. */
  type Values = map<Action, real>

  /** Every action of `s` has a value. */
  predicate Known(q: Values, s: seq<Action>)
  {
    forall k :: 0 <= k < |s| ==> s[k] in q
  }

  predicate Descending(q: Values, s: seq<Action>)
    requires Known(q, s)
  {
    forall i, j :: 0 <= i < j < |s| ==> q[s[i]] >= q[s[j]]
  }

  /** `x` placed after every element whose value is at least its own. */
  function Insert(q: Values, x: Action, s: seq<Action>): (r: seq<Action>)
    requires x in q && Known(q, s)
    ensures Known(q, r) && |r| == |s| + 1
  {
    if s == [] then [x]
    else if q[s[0]] >= q[x] then [s[0]] + Insert(q, x, s[1..])
    else [x] + s
  }

  /** The actions sorted by decreasing value, stably. */
  function Ranked(q: Values, s: seq<Action>): (r: seq<Action>)
    requires Known(q, s)
    ensures Known(q, r) && |r| == |s|
  {
    if s == [] then []
    else Insert(q, s[|s| - 1], Ranked(q, s[..|s| - 1]))
  }

  lemma {:induction false} InsertPermutes(q: Values, x: Action, s: seq<Action>)
    requires x in q && Known(q, s)
    ensures multiset(Insert(q, x, s)) == multiset(s) + multiset{x}
    decreases |s|
  {
    if s != [] && q[s[0]] >= q[x] {
      InsertPermutes(q, x, s[1..]);
      assert s == [s[0]] + s[1..];
    }
  }

  /** The ranking is a permutation of the known actions. */
  lemma {:induction false} RankedPermutes(q: Values, s: seq<Action>)
    requires Known(q, s)
    ensures multiset(Ranked(q, s)) == multiset(s)
    decreases |s|
  {
    if s != [] {
      var init := s[..|s| - 1];
      RankedPermutes(q, init);
      InsertPermutes(q, s[|s| - 1], Ranked(q, init));
      assert s == init + [s[|s| - 1]];
    }
  }

  lemma RankedMembers(q: Values, s: seq<Action>)
    requires Known(q, s)
    ensures forall a :: a in Ranked(q, s) <==> a in s
  {
    RankedPermutes(q, s);
    forall a ensures a in Ranked(q, s) <==> a in s {
      assert a in Ranked(q, s) <==> a in multiset(Ranked(q, s));
      assert a in s <==> a in multiset(s);
    }
  }

  lemma {:induction false} InsertMembers(q: Values, x: Action, s: seq<Action>)
    requires x in q && Known(q, s)
    ensures forall a :: a in Insert(q, x, s) <==> a == x || a in s
    decreases |s|
  {
    if s != [] && q[s[0]] >= q[x] {
      InsertMembers(q, x, s[1..]);
      assert s == [s[0]] + s[1..];
    }
  }

  lemma {:induction false} InsertDescending(q: Values, x: Action, s: seq<Action>)
    requires x in q && Known(q, s) && Descending(q, s)
    ensures Descending(q, Insert(q, x, s))
    decreases |s|
  {
    if s != [] && q[s[0]] >= q[x] {
      var rest := Insert(q, x, s[1..]);
      InsertDescending(q, x, s[1..]);
      InsertMembers(q, x, s[1..]);
      forall k | 0 <= k < |rest| ensures q[s[0]] >= q[rest[k]] {
        assert rest[k] in rest;
        if rest[k] != x {
          var m :| 0 <= m < |s[1..]| && s[1..][m] == rest[k];
          assert s[1..][m] == s[m + 1];
        }
      }
      var r := Insert(q, x, s);
      assert r == [s[0]] + rest;
      forall i, j | 0 <= i < j < |r| ensures q[r[i]] >= q[r[j]] {
        if i > 0 {
          assert r[i] == rest[i - 1] && r[j] == rest[j - 1];
        } else {
          assert r[j] == rest[j - 1];
        }
      }
    } else if s != [] {
      var r := Insert(q, x, s);
      assert r == [x] + s;
      forall i, j | 0 <= i < j < |r| ensures q[r[i]] >= q[r[j]] {
        if i > 0 {
          assert r[i] == s[i - 1] && r[j] == s[j - 1];
        } else {
          assert r[j] == s[j - 1] && q[s[0]] >= q[s[j - 1]];
        }
      }
    }
  }

  /** The ranking is in decreasing order of value. */
  lemma {:induction false} RankedDescending(q: Values, s: seq<Action>)
    requires Known(q, s)
    ensures Descending(q, Ranked(q, s))
    decreases |s|
  {
    if s != [] {
      RankedDescending(q, s[..|s| - 1]);
      InsertDescending(q, s[|s| - 1], Ranked(q, s[..|s| - 1]));
    }
  }

  /** The actions of `s` whose value is `v`, in their order in `s`. */
  function WithValue(q: Values, s: seq<Action>, v: real): seq<Action>
    requires Known(q, s)
  {
    if s == [] then []
    else (if q[s[0]] == v then [s[0]] else []) + WithValue(q, s[1..], v)
  }

  lemma {:induction false} WithValueMembers(q: Values, s: seq<Action>, v: real)
    requires Known(q, s)
    ensures forall a :: a in WithValue(q, s, v) <==> a in s && q[a] == v
    decreases |s|
  {
    if s != [] {
      WithValueMembers(q, s[1..], v);
      assert s == [s[0]] + s[1..];
    }
  }

  lemma {:induction false} WithValueAppend(q: Values, s: seq<Action>, t: seq<Action>, v: real)
    requires Known(q, s) && Known(q, t)
    ensures Known(q, s + t)
    ensures WithValue(q, s + t, v) == WithValue(q, s, v) + WithValue(q, t, v)
    decreases |s|
  {
    if s == [] {
      assert s + t == t;
    } else {
      var st, head := s + t, if q[s[0]] == v then [s[0]] else [];
      assert st[0] == s[0] && st[1..] == s[1..] + t;
      WithValueAppend(q, s[1..], t, v);
      var a, b := WithValue(q, s[1..], v), WithValue(q, t, v);
      assert WithValue(q, st, v) == head + (a + b);
      assert head + (a + b) == (head + a) + b;
    }
  }

  lemma {:induction false} InsertStable(q: Values, x: Action, s: seq<Action>, v: real)
    requires x in q && Known(q, s) && Descending(q, s)
    ensures WithValue(q, Insert(q, x, s), v) == WithValue(q, s, v) + (if q[x] == v then [x] else [])
    decreases |s|
  {
    if s == [] {
    } else if q[s[0]] >= q[x] {
      InsertStable(q, x, s[1..], v);
      assert Insert(q, x, s) == [s[0]] + Insert(q, x, s[1..]);
      assert Insert(q, x, s)[1..] == Insert(q, x, s[1..]);
    } else {
      assert Insert(q, x, s) == [x] + s;
      assert ([x] + s)[1..] == s;
      if q[x] == v {
        NoneWithValue(q, s, v);
      }
    }
  }

  /** No action of a descending list is valued above its first. */
  lemma {:induction false} NoneWithValue(q: Values, s: seq<Action>, v: real)
    requires Known(q, s) && Descending(q, s) && (s != [] ==> q[s[0]] < v)
    ensures WithValue(q, s, v) == []
    decreases |s|
  {
    if s != [] {
      if |s| > 1 {
        assert q[s[1]] <= q[s[0]];
      }
      NoneWithValue(q, s[1..], v);
    }
  }

  /** Ranking keeps the order of the actions of each value. */
  lemma {:induction false} RankedStable(q: Values, s: seq<Action>, v: real)
    requires Known(q, s)
    ensures WithValue(q, Ranked(q, s), v) == WithValue(q, s, v)
    decreases |s|
  {
    if s != [] {
      var init, last := s[..|s| - 1], s[|s| - 1];
      var r0 := Ranked(q, init);
      var tail := if q[last] == v then [last] else [];
      assert Ranked(q, s) == Insert(q, last, r0);
      RankedDescending(q, init);
      InsertStable(q, last, r0, v);
      RankedStable(q, init, v);
      assert WithValue(q, Ranked(q, s), v) == WithValue(q, init, v) + tail;
      WithValueAppend(q, init, [last], v);
      assert WithValue(q, [last], v) == tail;
      assert init + [last] == s;
    }
  }

  /** The highest value among the known actions `s`. */
  function Top(q: Values, s: seq<Action>): (v: real)
    requires Known(q, s) && |s| > 0
    ensures exists k :: 0 <= k < |s| && q[s[k]] == v
    ensures forall k :: 0 <= k < |s| ==> q[s[k]] <= v
  {
    RankedDescending(q, s);
    RankedMembers(q, s);
    var r := Ranked(q, s);
    assert r[0] in r;
    forall k | 0 <= k < |s| ensures q[s[k]] <= q[r[0]] {
      assert s[k] in s;
      var m :| 0 <= m < |r| && r[m] == s[k];
    }
    q[r[0]]
  }

  /**
   * The first ranked action has the highest value, and of the actions with
   * that value it is the one registered first.
   */
  lemma RankedFirst(q: Values, s: seq<Action>)
    requires Known(q, s) && |s| > 0
    ensures q[Ranked(q, s)[0]] == Top(q, s)
    ensures |WithValue(q, s, Top(q, s))| > 0
    ensures Ranked(q, s)[0] == WithValue(q, s, Top(q, s))[0]
  {
    var r := Ranked(q, s);
    RankedDescending(q, s);
    RankedMembers(q, s);
    var v := Top(q, s);
    assert r[0] in r;
    var k :| 0 <= k < |s| && q[s[k]] == v;
    assert s[k] in s;
    var m :| 0 <= m < |r| && r[m] == s[k];
    assert q[r[0]] == v;
    RankedStable(q, s, v);
    assert r == [r[0]] + r[1..];
    assert WithValue(q, r, v) == [r[0]] + WithValue(q, r[1..], v);
  }

  /** The elements of `s` that also occur in `actions`, in their order in `s`. */
  function Among(s: seq<Action>, actions: seq<Action>): (r: seq<Action>)
    ensures forall a :: a in r <==> a in s && a in actions
  {
    if s == [] then []
    else
      assert s == [s[0]] + s[1..];
      (if s[0] in actions then [s[0]] else []) + Among(s[1..], actions)
  }

  lemma {:induction false} AmongAppend(s: seq<Action>, t: seq<Action>, actions: seq<Action>)
    ensures Among(s + t, actions) == Among(s, actions) + Among(t, actions)
    decreases |s|
  {
    if s == [] {
      assert s + t == t;
    } else {
      assert (s + t)[0] == s[0] && (s + t)[1..] == s[1..] + t;
      AmongAppend(s[1..], t, actions);
    }
  }

  /**
   * The actions the exploit step draws from: the ranked actions whose value
   * equals that of the first ranked action and that are legal now.
   */
  function Candidates(q: Values, s: seq<Action>, actions: seq<Action>): seq<Action>
    requires Known(q, s) && |s| > 0
  {
    var r := Ranked(q, s);
    RankedFirst(q, s);
    Among(WithValue(q, r, q[r[0]]), actions)
  }

  /**
   * The candidates are the legal known actions of the highest value, in the
   * order in which they were registered.
   */
  lemma CandidatesAreBestLegal(q: Values, s: seq<Action>, actions: seq<Action>)
    requires Known(q, s) && |s| > 0
    ensures Candidates(q, s, actions) == Among(WithValue(q, s, Top(q, s)), actions)
    ensures forall a :: a in Candidates(q, s, actions) <==> a in s && a in actions && q[a] == Top(q, s)
  {
    RankedFirst(q, s);
    RankedStable(q, s, Top(q, s));
    WithValueMembers(q, s, Top(q, s));
  }
}
