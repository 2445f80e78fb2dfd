/** The skip list under one writer and any number of readers without locks (db/skiplist.h).
    Nodes are named by their keys. */
module SkipLists {
  import opened DbFormat

  const MAX_HEIGHT := 12

  type Key = real

  /** None is the head node. */
  type Node = Option<Key>

  /** None is the null pointer. */
  type Link = Option<Key>

  // ---- One level ----

  predicate After(n: Node, k: Key) {
    n.None? || n.value < k
  }

  /** l points to the first key behind n. */
  ghost predicate IsNext(keys: set<Key>, n: Node, l: Link) {
    && (l.Some? ==> l.value in keys && After(n, l.value))
    && forall k :: k in keys && After(n, k) ==> l.Some? && l.value <= k
  }

  /** n is the last node before k. */
  ghost predicate IsPrev(keys: set<Key>, k: Key, n: Node) {
    && After(n, k) && (n.Some? ==> n.value in keys)
    && forall j :: j in keys && j < k ==> n.Some? && j <= n.value
  }

  /** The pointers of a level link exactly the given keys in increasing order. */
  ghost predicate LevelOk(next: map<Node, Link>, keys: set<Key>) {
    && None in next
    && (forall k :: k in keys ==> Some(k) in next)
    && forall n {:trigger n in next} :: n in next && (n.Some? ==> n.value in keys) ==> IsNext(keys, n, next[n])
  }

  /** Storing into a node that is not linked yet changes nothing. */
  lemma SetNextOk(next: map<Node, Link>, keys: set<Key>, k: Key, l: Link)
    requires LevelOk(next, keys) && k !in keys
    ensures LevelOk(next[Some(k) := l], keys)
  {
  }

  /** Publishing a node whose pointer is set, behind the last node before it. */
  lemma PublishOk(next: map<Node, Link>, keys: set<Key>, k: Key, prev: Node)
    requires LevelOk(next, keys) && k !in keys && IsPrev(keys, k, prev)
    requires Some(k) in next && prev in next && next[Some(k)] == next[prev]
    ensures LevelOk(next[prev := Some(k)], keys + {k})
  {
    var next', keys' := next[prev := Some(k)], keys + {k};
    assert IsNext(keys, prev, next[prev]);
    forall n | n in next' && (n.Some? ==> n.value in keys')
      ensures IsNext(keys', n, next'[n])
    {
      if n != prev && n != Some(k) {
        assert IsNext(keys, n, next[n]);
      }
    }
  }

  lemma Linked(next: map<Node, Link>, keys: set<Key>, x: Node)
    requires LevelOk(next, keys) && (x.Some? ==> x.value in keys)
    ensures x in next && IsNext(keys, x, next[x])
  {
    match x {
      case None =>
      case Some(k) => assert k in keys;
    }
  }

  /** The keys still ahead of a search on its level. */
  ghost function Ahead(keys: set<Key>, x: Node): set<Key> {
    set k | k in keys && After(x, k)
  }

  lemma AheadShrinks(keys: set<Key>, x: Node, n: Link)
    requires n.Some? && IsNext(keys, x, n)
    ensures Ahead(keys, n) < Ahead(keys, x)
  {
    assert n.value in Ahead(keys, x) && n.value !in Ahead(keys, n);
  }

  // ---- Searching, alone ----

  /** The list between operations of its one writer. */
  class SkipList {
    var next: seq<map<Node, Link>>
    ghost var keys: seq<set<Key>>
    var maxHeight: nat

    ghost predicate Valid()
      reads this
    {
      && |next| == |keys| == MAX_HEIGHT && 1 <= maxHeight <= MAX_HEIGHT
      && (forall i :: 0 <= i < MAX_HEIGHT ==> LevelOk(next[i], keys[i]))
      && (forall i, j :: 0 <= i <= j < MAX_HEIGHT ==> keys[j] <= keys[i])
      && (forall i :: maxHeight <= i < MAX_HEIGHT ==> keys[i] == {})
    }

    constructor ()
      ensures Valid() && forall i :: 0 <= i < MAX_HEIGHT ==> keys[i] == {}
    {
      next := seq(MAX_HEIGHT, _ => map[None := None]);
      keys := seq(MAX_HEIGHT, _ => {});
      maxHeight := 1;
    }

    /** The earliest key at or after the target; on the way, the last node before it on each level. */
    method FindGreaterOrEqual(target: Key) returns (r: Link, prev: seq<Node>)
      requires Valid()
      ensures r.Some? ==> r.value in keys[0] && r.value >= target
      ensures forall k :: k in keys[0] && k >= target ==> r.Some? && r.value <= k
      ensures |prev| == maxHeight && forall i :: 0 <= i < maxHeight ==> IsPrev(keys[i], target, prev[i])
    {
      var x: Node, level := None, maxHeight - 1;
      prev := seq(maxHeight, _ => None);
      while true
        invariant 0 <= level < maxHeight == |prev| && After(x, target) && (x.Some? ==> x.value in keys[level])
        invariant forall i :: level < i < maxHeight ==> IsPrev(keys[i], target, prev[i])
        decreases level, Ahead(keys[level], x)
      {
        Linked(next[level], keys[level], x);
        var n := next[level][x];
        if n.Some? && n.value < target {
          AheadShrinks(keys[level], x, n);
          x := n;
        } else {
          prev := prev[level := x];
          if level == 0 {
            return n, prev;
          }
          level := level - 1;
        }
      }
    }

    method Contains(key: Key) returns (r: bool)
      requires Valid()
      ensures r == (key in keys[0])
    {
      var x, prev := FindGreaterOrEqual(key);
      r := x == Some(key);
    }

    /** The latest node with a key before the target, or the head. */
    method FindLessThan(target: Key) returns (x: Node)
      requires Valid()
      ensures IsPrev(keys[0], target, x)
    {
      var level := maxHeight - 1;
      x := None;
      while true
        invariant 0 <= level < maxHeight && After(x, target) && (x.Some? ==> x.value in keys[level])
        decreases level, Ahead(keys[level], x)
      {
        Linked(next[level], keys[level], x);
        var n := next[level][x];
        if n.None? || n.value >= target {
          if level == 0 {
            return;
          }
          level := level - 1;
        } else {
          AheadShrinks(keys[level], x, n);
          x := n;
        }
      }
    }

    /** The last node, or the head of an empty list. */
    method FindLast() returns (x: Node)
      requires Valid()
      ensures (x.Some? ==> x.value in keys[0]) && forall k :: k in keys[0] ==> x.Some? && k <= x.value
    {
      var level := maxHeight - 1;
      x := None;
      while true
        invariant 0 <= level < maxHeight && (x.Some? ==> x.value in keys[level])
        decreases level, Ahead(keys[level], x)
      {
        Linked(next[level], keys[level], x);
        var n := next[level][x];
        if n.None? {
          if level == 0 {
            return;
          }
          level := level - 1;
        } else {
          AheadShrinks(keys[level], x, n);
          x := n;
        }
      }
    }

    /** Levels below n hold the new key, the others do not yet. */
    ghost predicate LinkedUpTo(was: seq<set<Key>>, key: Key, n: nat)
      reads this
    {
      && |next| == |keys| == |was| == MAX_HEIGHT
      && (forall j {:trigger next[j]} {:trigger keys[j]} :: 0 <= j < MAX_HEIGHT ==> LevelOk(next[j], keys[j]))
      && (forall j {:trigger keys[j]} {:trigger was[j]} :: 0 <= j < MAX_HEIGHT ==> keys[j] == was[j] + if j < n then {key} else {})
    }

    /** Links the new node into one level: first its own pointer, then that of the node before it. */
    method LinkLevel(key: Key, i: nat, prev: Node, ghost was: seq<set<Key>>)
      requires LinkedUpTo(was, key, i) && i < MAX_HEIGHT && key !in was[i] && IsPrev(was[i], key, prev)
      modifies this`next, this`keys
      ensures LinkedUpTo(was, key, i + 1)
    {
      assert keys[i] == was[i];
      LinkOk(next[i], keys[i], key, prev);
      next := next[i := next[i][Some(key) := next[i][prev]]];
      next := next[i := next[i][prev := Some(key)]];
      keys := keys[i := keys[i] + {key}];
    }

    /** Links the key into levels 0, ..., height - 1, lowest first.  height is RandomHeight's. */
    method Insert(key: Key, height: nat)
      requires Valid() && key !in keys[0] && 1 <= height <= MAX_HEIGHT
      modifies this
      ensures Valid()
      ensures forall i :: 0 <= i < MAX_HEIGHT ==> keys[i] == old(keys[i]) + if i < height then {key} else {}
    {
      ghost var was, top := keys, maxHeight;
      var x, prev := FindGreaterOrEqual(key);
      if height > maxHeight {
        prev := prev + seq(height - maxHeight, _ => None);
        maxHeight := height;
      }
      assert forall j :: 0 <= j < height ==> key !in was[j] && IsPrev(was[j], key, prev[j]);
      for i := 0 to height
        invariant LinkedUpTo(was, key, i) && maxHeight == (if height > top then height else top)
      {
        LinkLevel(key, i, prev[i], was);
      }
      forall i, j | 0 <= i <= j < MAX_HEIGHT
        ensures keys[j] <= keys[i]
      {
        assert was[j] <= was[i];
      }
      assert forall i :: 0 <= i < MAX_HEIGHT ==> was[i] == old(keys[i]);
    }
  }

  lemma LinkOk(next: map<Node, Link>, keys: set<Key>, k: Key, prev: Node)
    requires LevelOk(next, keys) && k !in keys && IsPrev(keys, k, prev)
    ensures prev in next
    ensures LevelOk(next[Some(k) := next[prev]][prev := Some(k)], keys + {k})
  {
    SetNextOk(next, keys, k, next[prev]);
    PublishOk(next[Some(k) := next[prev]], keys, k, prev);
  }

  // ---- One writer and concurrent searches ----

  /** An insertion under way: levels below level are linked; prepared says that the new node's own
      pointer on this level is set. */
  datatype Insertion = Insertion(key: Key, height: nat, prev: seq<Node>, level: nat, prepared: bool)

  /** A FindGreaterOrEqual under way or, once found is set, done.  start is what was in the list
      when it began, final what was there at its last load. */
  datatype Search = Search(target: Key, x: Node, level: nat, start: set<Key>, found: Option<Link>, final: set<Key>)

  datatype Shared = Shared(next: seq<map<Node, Link>>, keys: seq<set<Key>>, maxHeight: nat,
                           insertion: Option<Insertion>, searches: map<nat, Search>)

  ghost predicate Init(s: Shared) {
    && |s.next| == |s.keys| == MAX_HEIGHT && s.maxHeight == 1 && s.insertion == None && s.searches == map[]
    && forall i :: 0 <= i < MAX_HEIGHT ==> s.next[i] == map[None := None] && s.keys[i] == {}
  }

  /** The writer has searched for the place of a new key; nothing else changes the list. */
  ghost predicate BeginInsert(s: Shared, s': Shared, key: Key, height: nat, prev: seq<Node>) {
    && s.insertion.None? && |s.keys| == MAX_HEIGHT && 1 <= height <= MAX_HEIGHT && |prev| == MAX_HEIGHT
    && key !in s.keys[0]
    && (forall i :: 0 <= i < MAX_HEIGHT ==> if i < s.maxHeight then IsPrev(s.keys[i], key, prev[i]) else prev[i] == None)
    && s' == s.(insertion := Some(Insertion(key, height, prev, 0, false)))
  }

  /** max_height_.store, before any linking. */
  ghost predicate RaiseHeight(s: Shared, s': Shared) {
    && s.insertion.Some? && s.insertion.value.level == 0 && !s.insertion.value.prepared
    && s.insertion.value.height > s.maxHeight
    && s' == s.(maxHeight := s.insertion.value.height)
  }

  /** x->NoBarrier_SetNext(i, prev[i]->NoBarrier_Next(i)). */
  ghost predicate SetNext(s: Shared, s': Shared) {
    && s.insertion.Some?
    && var w := s.insertion.value;
       && !w.prepared && w.level < w.height <= s.maxHeight <= |s.next| && w.level < |w.prev| && w.prev[w.level] in s.next[w.level]
       && s' == s.(next := s.next[w.level := s.next[w.level][Some(w.key) := s.next[w.level][w.prev[w.level]]]],
                   insertion := Some(w.(prepared := true)))
  }

  /** prev[i]->SetNext(i, x). */
  ghost predicate Publish(s: Shared, s': Shared) {
    && s.insertion.Some?
    && var w := s.insertion.value;
       && w.prepared && w.level < |s.next| == |s.keys| && w.level < |w.prev|
       && s' == s.(next := s.next[w.level := s.next[w.level][w.prev[w.level] := Some(w.key)]],
                   keys := s.keys[w.level := s.keys[w.level] + {w.key}],
                   insertion := Some(w.(level := w.level + 1, prepared := false)))
  }

  ghost predicate EndInsert(s: Shared, s': Shared) {
    && s.insertion.Some? && s.insertion.value.level == s.insertion.value.height
    && s' == s.(insertion := None)
  }

  /** A reader starts on any height that max_height_ has had: stale values are fine. */
  ghost predicate BeginSearch(s: Shared, s': Shared, id: nat, target: Key, height: nat) {
    && 1 <= height <= s.maxHeight && id !in s.searches && |s.keys| == MAX_HEIGHT
    && s' == s.(searches := s.searches[id := Search(target, None, height - 1, s.keys[0], None, {})])
  }

  /** One turn of the loop: one load of a pointer. */
  ghost predicate SearchStep(s: Shared, s': Shared, id: nat) {
    && id in s.searches && s.searches[id].found.None?
    && var r := s.searches[id];
       && r.level < |s.next| == |s.keys| && r.x in s.next[r.level]
       && var n := s.next[r.level][r.x];
          s' == s.(searches := s.searches[id :=
            if n.Some? && n.value < r.target then r.(x := n)
            else if r.level == 0 then r.(found := Some(n), final := s.keys[0])
            else r.(level := r.level - 1)])
  }

  ghost predicate EndSearch(s: Shared, s': Shared, id: nat) {
    id in s.searches && s.searches[id].found.Some? && s' == s.(searches := s.searches - {id})
  }

  ghost predicate Next(s: Shared, s': Shared) {
    || (exists key, height, prev :: BeginInsert(s, s', key, height, prev))
    || RaiseHeight(s, s') || SetNext(s, s') || Publish(s, s') || EndInsert(s, s')
    || (exists id, target, height :: BeginSearch(s, s', id, target, height))
    || (exists id :: SearchStep(s, s', id)) || (exists id :: EndSearch(s, s', id))
  }

  // ---- Safety ----

  /** Every level is linked in order, and is a sublist of the level below. */
  ghost predicate LevelsOk(s: Shared) {
    && |s.next| == |s.keys| == MAX_HEIGHT && 1 <= s.maxHeight <= MAX_HEIGHT
    && (forall i :: 0 <= i < MAX_HEIGHT ==> LevelOk(s.next[i], s.keys[i]))
    && (forall i, j :: 0 <= i <= j < MAX_HEIGHT ==> s.keys[j] <= s.keys[i])
    && (forall i :: s.maxHeight <= i < MAX_HEIGHT ==> s.keys[i] == {})
  }

  ghost predicate InsertionOk(s: Shared, w: Insertion)
    requires |s.next| == |s.keys| == MAX_HEIGHT
  {
    && 1 <= w.height <= MAX_HEIGHT && w.level <= w.height && |w.prev| == MAX_HEIGHT
    && (w.level > 0 || w.prepared ==> w.height <= s.maxHeight)
    && (forall i :: 0 <= i < w.level ==> w.key in s.keys[i])
    && (forall i :: w.level <= i < MAX_HEIGHT ==> w.key !in s.keys[i])
    && (forall i :: w.level <= i < w.height ==> IsPrev(s.keys[i], w.key, w.prev[i]))
    && (w.prepared ==> w.level < w.height && PointsBehind(s.next[w.level], w.key, w.prev[w.level]))
  }

  ghost predicate PointsBehind(next: map<Node, Link>, k: Key, prev: Node) {
    Some(k) in next && prev in next && next[Some(k)] == next[prev]
  }

  /** Where a search is, is before its target and linked; a result is the least key at or after the
      target among those in the list at the last load, which include those in the list at the start. */
  ghost predicate SearchOk(keys: seq<set<Key>>, r: Search)
    requires |keys| == MAX_HEIGHT
  {
    && r.level < MAX_HEIGHT && After(r.x, r.target) && (r.x.Some? ==> r.x.value in keys[r.level])
    && r.start <= keys[0]
    && (r.found.Some? ==> r.start <= r.final && IsLeastFrom(r.final, r.target, r.found.value))
  }

  ghost predicate IsLeastFrom(keys: set<Key>, target: Key, l: Link) {
    && (l.Some? ==> l.value in keys && l.value >= target)
    && forall k :: k in keys && k >= target ==> l.Some? && l.value <= k
  }

  ghost predicate Inv(s: Shared) {
    && LevelsOk(s)
    && (s.insertion.Some? ==> InsertionOk(s, s.insertion.value))
    && forall id :: id in s.searches ==> SearchOk(s.keys, s.searches[id])
  }

  lemma SearchesStay(s: Shared, s': Shared)
    requires Inv(s) && s'.searches == s.searches && |s'.keys| == MAX_HEIGHT
    requires forall i :: 0 <= i < MAX_HEIGHT ==> s.keys[i] <= s'.keys[i]
    ensures forall id :: id in s'.searches ==> SearchOk(s'.keys, s'.searches[id])
  {
    forall id | id in s'.searches
      ensures SearchOk(s'.keys, s'.searches[id])
    {
      assert SearchOk(s.keys, s.searches[id]);
    }
  }

  lemma SetNextKeepsInv(s: Shared, s': Shared)
    requires Inv(s) && SetNext(s, s')
    ensures Inv(s')
  {
    var w := s.insertion.value;
    SetNextOk(s.next[w.level], s.keys[w.level], w.key, s.next[w.level][w.prev[w.level]]);
    SearchesStay(s, s');
  }

  lemma PublishKeepsInv(s: Shared, s': Shared)
    requires Inv(s) && Publish(s, s')
    ensures Inv(s')
  {
    var w := s.insertion.value;
    PublishOk(s.next[w.level], s.keys[w.level], w.key, w.prev[w.level]);
    SearchesStay(s, s');
  }

  /** One load of a search: it moves on towards its target, goes down, or finds. */
  lemma SearchMoves(s: Shared, r: Search)
    requires LevelsOk(s) && SearchOk(s.keys, r) && r.found.None?
    ensures r.x in s.next[r.level]
    ensures var n := s.next[r.level][r.x];
      SearchOk(s.keys, if n.Some? && n.value < r.target then r.(x := n)
                       else if r.level == 0 then r.(found := Some(n), final := s.keys[0])
                       else r.(level := r.level - 1))
  {
    Linked(s.next[r.level], s.keys[r.level], r.x);
  }

  lemma SearchStepKeepsInv(s: Shared, s': Shared, id: nat)
    requires Inv(s) && SearchStep(s, s', id)
    ensures Inv(s')
  {
    SearchMoves(s, s.searches[id]);
  }

  lemma BeginInsertKeepsInv(s: Shared, s': Shared, key: Key, height: nat, prev: seq<Node>)
    requires Inv(s) && BeginInsert(s, s', key, height, prev)
    ensures Inv(s')
  {
    var w := s'.insertion.value;
    forall i | 0 <= i < MAX_HEIGHT
      ensures key !in s.keys[i] && IsPrev(s.keys[i], key, prev[i])
    {
      assert s.keys[i] <= s.keys[0];
    }
    assert InsertionOk(s', w);
  }

  lemma WriterStepKeepsInv(s: Shared, s': Shared)
    requires Inv(s) && (RaiseHeight(s, s') || EndInsert(s, s'))
    ensures Inv(s')
  {
  }

  lemma ReaderComesOrGoes(s: Shared, s': Shared, id: nat, target: Key, height: nat)
    requires Inv(s) && (BeginSearch(s, s', id, target, height) || EndSearch(s, s', id))
    ensures Inv(s')
  {
  }

  lemma NextKeepsInv(s: Shared, s': Shared)
    requires Inv(s) && Next(s, s')
    ensures Inv(s')
  {
    if SetNext(s, s') {
      SetNextKeepsInv(s, s');
    } else if Publish(s, s') {
      PublishKeepsInv(s, s');
    } else if RaiseHeight(s, s') || EndInsert(s, s') {
      WriterStepKeepsInv(s, s');
    } else if id :| SearchStep(s, s', id) {
      SearchStepKeepsInv(s, s', id);
    } else if key, height, prev :| BeginInsert(s, s', key, height, prev) {
      BeginInsertKeepsInv(s, s', key, height, prev);
    } else if id, target, height :| BeginSearch(s, s', id, target, height) {
      ReaderComesOrGoes(s, s', id, target, height);
    } else {
      var id :| EndSearch(s, s', id);
      ReaderComesOrGoes(s, s', id, 0.0, 1);
    }
  }

  ghost predicate Run(states: seq<Shared>) {
    && states != [] && Init(states[0])
    && forall i :: 0 <= i < |states| - 1 ==> Next(states[i], states[i + 1])
  }

  lemma {:induction false} RunInv(states: seq<Shared>, i: nat)
    requires Run(states) && i < |states|
    ensures Inv(states[i])
  {
    if i > 0 {
      RunInv(states, i - 1);
      assert Next(states[i - 1], states[i - 1 + 1]);
      NextKeepsInv(states[i - 1], states[i]);
    }
  }

  /** For every interleaving: a finished search returned null or a key at or after its target, and
      no key that was in the list when it began lies in between. */
  lemma SearchesSkipNothing(states: seq<Shared>, i: nat, id: nat)
    requires Run(states) && i < |states| && id in states[i].searches && states[i].searches[id].found.Some?
    ensures var r := states[i].searches[id];
      && r.start <= r.final
      && (r.found.value.Some? ==> r.found.value.value >= r.target && r.found.value.value in r.final)
      && forall k :: k in r.final && k >= r.target ==> r.found.value.Some? && r.found.value.value <= k
  {
    RunInv(states, i);
    assert SearchOk(states[i].keys, states[i].searches[id]);
  }

  /** For every interleaving: each level is a sorted sublist of the one below it. */
  lemma LevelsAreSublists(states: seq<Shared>, i: nat, level: nat)
    requires Run(states) && i < |states| && level + 1 < MAX_HEIGHT
    ensures |states[i].keys| == |states[i].next| == MAX_HEIGHT
    ensures states[i].keys[level + 1] <= states[i].keys[level] && LevelOk(states[i].next[level], states[i].keys[level])
  {
    RunInv(states, i);
  }
}
