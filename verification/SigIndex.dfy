/** The multicast index of client/FrameDecider.c as values: a tree of master entries over
    per-signature lists, and what adding and removing a member does to it. */
module SigIndex {
  import opened Wrappers
  import opened Lists
  import opened FrameTables

  type Tree = map<Sig, Member>
  type SigLists = map<Sig, seq<Member>>

  function SigOf(m: Member): Sig {
    GroupSig(m.group)
  }

  /** The tree and lists index exactly the members `ms`: a signature is in the tree if and
      only if some member has it, its list holds those members once each, and of them the
      tree's entry alone is a master. */
  ghost predicate Indexes(tree: Tree, lists: SigLists, masters: set<Member>, ms: set<Member>) {
    && tree.Keys == lists.Keys
    && (forall s :: s in lists ==> NoDup(lists[s]) && tree[s] in lists[s])
    && (forall s, m :: s in lists && m in lists[s] ==> m in ms && SigOf(m) == s)
    && (forall m :: m in ms ==> SigOf(m) in lists && m in lists[SigOf(m)])
    && (forall m :: m in ms ==> (m in masters <==> tree[SigOf(m)] == m))
    && masters <= ms
  }

  lemma AddLonely(tree: Tree, lists: SigLists, masters: set<Member>, ms: set<Member>, m: Member)
    requires Indexes(tree, lists, masters, ms) && m !in ms && SigOf(m) !in lists
    ensures Indexes(tree[SigOf(m) := m], lists[SigOf(m) := [m]], masters + {m}, ms + {m})
  {
    assert forall x :: x in ms ==> SigOf(x) != SigOf(m);
  }

  function InsertAfter(s: seq<Member>, k: nat, m: Member): (r: seq<Member>)
    requires k < |s|
    ensures forall x :: x in r <==> x in s || x == m
    ensures NoDup(s) && m !in s ==> NoDup(r)
  {
    assert s == s[..k + 1] + s[k + 1..];
    s[..k + 1] + [m] + s[k + 1..]
  }

  lemma AddBehind(tree: Tree, lists: SigLists, masters: set<Member>, ms: set<Member>, m: Member, k: nat)
    requires Indexes(tree, lists, masters, ms) && m !in ms && SigOf(m) in lists && k < |lists[SigOf(m)]|
    ensures Indexes(tree, lists[SigOf(m) := InsertAfter(lists[SigOf(m)], k, m)], masters, ms + {m})
  {
    hide NoDup, InsertAfter;
    assert m !in lists[SigOf(m)] && tree[SigOf(m)] != m;
    assert NoDup(InsertAfter(lists[SigOf(m)], k, m));
  }

  lemma RemoveLonely(tree: Tree, lists: SigLists, masters: set<Member>, ms: set<Member>, m: Member)
    requires Indexes(tree, lists, masters, ms) && m in ms && |lists[SigOf(m)]| == 1
    ensures m in masters
    ensures Indexes(tree - {SigOf(m)}, lists - {SigOf(m)}, masters - {m}, ms - {m})
  {
    assert lists[SigOf(m)] == [m];
    assert forall x :: x in ms && x != m ==> SigOf(x) != SigOf(m);
  }

  /** Removing a master promotes another member of its list. */
  lemma RemoveMaster(tree: Tree, lists: SigLists, masters: set<Member>, ms: set<Member>, m: Member, next: Member)
    requires Indexes(tree, lists, masters, ms) && m in masters
    requires SigOf(m) in lists && next in lists[SigOf(m)] && next != m
    ensures next !in masters
    ensures Indexes(tree[SigOf(m) := next], lists[SigOf(m) := Without(lists[SigOf(m)], m)], masters + {next} - {m}, ms - {m})
  {
    hide NoDup, Without;
  }

  lemma RemoveOther(tree: Tree, lists: SigLists, masters: set<Member>, ms: set<Member>, m: Member)
    requires Indexes(tree, lists, masters, ms) && m in ms && m !in masters
    ensures |lists[SigOf(m)]| > 1
    ensures Indexes(tree, lists[SigOf(m) := Without(lists[SigOf(m)], m)], masters, ms - {m})
  {
    hide NoDup, Without;
    var list := lists[SigOf(m)];
    var i :| 0 <= i < |list| && list[i] == m;
    var j :| 0 <= j < |list| && list[j] == tree[SigOf(m)];
  }

  function IndexOf(list: seq<Member>, m: Member): (k: nat)
    requires m in list
    ensures k < |list| && list[k] == m
  {
    if list[0] == m then 0 else 1 + IndexOf(list[1..], m)
  }

  /** The other member NextOrPrev finds beside `m`, if it is not alone. */
  function Heir(list: seq<Member>, m: Member): (h: Option<Member>)
    requires m in list
    ensures NoDup(list) ==> (h.Some? <==> |list| > 1) && (h.Some? ==> h.value in list && h.value != m)
  {
    var k := IndexOf(list, m);
    if k + 1 < |list| then Some(list[k + 1]) else if k > 0 then Some(list[k - 1]) else None
  }

  function TreeWithout(tree: Tree, list: seq<Member>, masters: set<Member>, m: Member): Tree
    requires m in list
  {
    if m !in masters then tree
    else match Heir(list, m) case Some(h) => tree[SigOf(m) := h] case None => tree - {SigOf(m)}
  }

  function MastersWithout(list: seq<Member>, masters: set<Member>, m: Member): set<Member>
    requires m in list
  {
    if m !in masters then masters
    else match Heir(list, m) case Some(h) => masters - {m} + {h} case None => masters - {m}
  }

  function ListsWithout(lists: SigLists, s: Sig, m: Member): SigLists
    requires s in lists
  {
    if lists[s] == [m] then lists - {s} else lists[s := Without(lists[s], m)]
  }

  lemma LonelyList(list: seq<Member>, m: Member)
    requires m in list
    ensures |list| == 1 <==> list == [m]
  {
  }

  /** Taking a member out, with promotion if it was the master, leaves the index of the
      others. */
  lemma RemoveKeeps(tree: Tree, lists: SigLists, masters: set<Member>, ms: set<Member>, m: Member)
    requires Indexes(tree, lists, masters, ms) && m in ms
    ensures var s := SigOf(m);
            && s in lists && m in lists[s]
            && Indexes(TreeWithout(tree, lists[s], masters, m), ListsWithout(lists, s, m),
                       MastersWithout(lists[s], masters, m), ms - {m})
            && (forall r :: r in lists ==> NoDup(lists[r]) && (m in lists[r] ==> r == s))
  {
    var s := SigOf(m);
    LonelyList(lists[s], m);
    if m !in masters {
      RemoveOther(tree, lists, masters, ms, m);
    } else if |lists[s]| > 1 {
      var h := Heir(lists[s], m).value;
      RemoveMaster(tree, lists, masters, ms, m, h);
      assert masters + {h} - {m} == masters - {m} + {h};
    } else {
      RemoveLonely(tree, lists, masters, ms, m);
    }
  }

  // ----- iteration

  /** The list from element `x` on. */
  function From<T(==)>(s: seq<T>, x: T): (r: seq<T>)
    ensures x in s ==> r != [] && r[0] == x
    ensures |r| <= |s|
  {
    if s == [] then [] else if s[0] == x then s else From(s[1..], x)
  }

  lemma {:induction false} FromTail<T(!new)>(s: seq<T>, x: T)
    requires NoDup(s) && x in s
    ensures From(s, x) == [x] + From(s, x)[1..] && NoDup(From(s, x))
    ensures forall y :: y in From(s, x) ==> y in s
    ensures |From(s, x)| > 1 ==> From(s, From(s, x)[1]) == From(s, x)[1..]
  {
    if s[0] != x {
      FromTail(s[1..], x);
      if |From(s, x)| > 1 { assert From(s, x)[1] in s[1..] && From(s, x)[1] != s[0]; }
    } else if |s| > 1 {
      assert s[1..][0] == s[1];
    }
  }

  /** Unlinking an element takes it out of what an iterator at another element has left. */
  lemma {:induction false} FromWithout<T(!new)>(s: seq<T>, x: T, m: T)
    requires NoDup(s) && x in s && x != m
    ensures From(Without(s, m), x) == Without(From(s, x), m)
  {
    if s[0] != x { FromWithout(s[1..], x, m); }
  }

  /** An iterator at an unlinked element moves on to the next. */
  lemma {:induction false} FromNext<T(!new)>(s: seq<T>, m: T)
    requires NoDup(s) && m in s
    ensures var r := From(s, m);
            && r[1..] == Without(r, m)
            && (|r| > 1 ==> From(Without(s, m), r[1]) == r[1..])
  {
    var r := From(s, m);
    FromTail(s, m);
    assert m !in r[1..];
    assert Without(r, m) == Without(r[1..], m);
    if |r| > 1 {
      FromWithout(s, r[1], m);
    }
  }
}
