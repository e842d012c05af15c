/** What a printed path selects in a datastore: the contract of get_subtrees. */
module Selection {
  import opened Seqs
  import opened Gnmi
  import opened XPath
  import opened Decimal
  import opened Json
  import opened Reader

  /** Whether a step's module and node names mean node `n`; schema knowledge of sysrepo. */
  type Resolver = (string, string, Node) -> bool

  /** The lexical form of a leaf value, which key predicates compare with. */
  function TextOf(v: Value): string {
    match v
    case Small(_, n) => PrintInt(n)
    case Wide(_, n) => PrintInt(n)
    case Chars(_, s) => s
    case Boolean(b) => if b then "true" else "false"
    case Decimal64(text) => text
  }

  predicate IsLeaf(c: Node, k: Key) {
    c.Leaf? && c.name == k.name && TextOf(c.value) == k.value
  }

  predicate HasKey(n: Node, k: Key) {
    exists i :: 0 <= i < |Kids(n)| && IsLeaf(Kids(n)[i], k)
  }

  predicate Matches(sees: Resolver, s: Step, n: Node) {
    sees(s.origin, s.name, n) && forall k :: k in s.keys ==> HasKey(n, k)
  }

  function Match(sees: Resolver, ns: seq<Node>, s: Step): seq<Node> {
    if ns == [] then []
    else
      var front, n := Match(sees, ns[..|ns| - 1], s), ns[|ns| - 1];
      if Matches(sees, s, n) then front + [n] else front
  }

  function AllKids(ns: seq<Node>): seq<Node> {
    if ns == [] then [] else AllKids(ns[..|ns| - 1]) + Kids(ns[|ns| - 1])
  }

  /** The nodes that the steps `ss` lead to from the sibling list `ns`, in document order. */
  function Select(sees: Resolver, ns: seq<Node>, ss: seq<Step>): seq<Node>
    requires ss != []
    decreases |ss|
  {
    var here := Match(sees, ns, ss[0]);
    if |ss| == 1 then here else Select(sees, AllKids(here), ss[1..])
  }

  /** get_subtrees on a datastore whose top-level nodes are `roots`. */
  function Lookup(sees: Resolver, roots: seq<Node>, xpath: string): Subtrees {
    match ReadSteps(xpath)
    case None => Failure
    case Some(ss) =>
      if ss == [] then Failure
      else
        var found := Select(sees, roots, ss);
        if found == [] then NullPointer else Trees(found)
  }

  /** The nodes of `ns` that carry key `k`. */
  function Keep(ns: seq<Node>, k: Key): seq<Node> {
    if ns == [] then []
    else
      var front, n := Keep(ns[..|ns| - 1], k), ns[|ns| - 1];
      if HasKey(n, k) then front + [n] else front
  }

  function WithKey(s: Step, k: Key): Step {
    s.(keys := s.keys + [k])
  }

  lemma MatchesMore(sees: Resolver, s: Step, k: Key, n: Node)
    ensures Matches(sees, WithKey(s, k), n) <==> Matches(sees, s, n) && HasKey(n, k)
  {
    assert forall x :: x in WithKey(s, k).keys <==> x in s.keys || x == k;
  }

  lemma {:induction false} MatchMore(sees: Resolver, ns: seq<Node>, s: Step, k: Key)
    ensures Match(sees, ns, WithKey(s, k)) == Keep(Match(sees, ns, s), k)
  {
    if ns != [] {
      var front, n := ns[..|ns| - 1], ns[|ns| - 1];
      MatchMore(sees, front, s, k);
      MatchesMore(sees, s, k, n);
      KeepSnoc(Match(sees, front, s), n, k);
    }
  }

  lemma KeepSnoc(ns: seq<Node>, n: Node, k: Key)
    ensures Keep(ns + [n], k) == if HasKey(n, k) then Keep(ns, k) + [n] else Keep(ns, k)
  {
    Unsnoc(ns, n);
  }

  /** A key predicate on the last step keeps exactly the selected nodes that carry the key. */
  lemma {:induction false} SelectMore(sees: Resolver, ns: seq<Node>, ss: seq<Step>, last: Step, k: Key)
    ensures Select(sees, ns, ss + [WithKey(last, k)]) == Keep(Select(sees, ns, ss + [last]), k)
    decreases |ss|
  {
    if ss == [] {
      MatchMore(sees, ns, last, k);
    } else {
      HeadTail(ss, last);
      HeadTail(ss, WithKey(last, k));
      SelectMore(sees, AllKids(Match(sees, ns, ss[0])), ss[1..], last, k);
    }
  }

  /** The order of key predicates on a step does not matter. */
  lemma KeyOrderIsIrrelevant(sees: Resolver, s: Step, keys: seq<Key>, n: Node)
    requires multiset(keys) == multiset(s.keys)
    ensures Matches(sees, s.(keys := keys), n) == Matches(sees, s, n)
  {
    assert forall k :: k in keys <==> k in multiset(keys);
    assert forall k :: k in s.keys <==> k in multiset(s.keys);
  }

  predicate CarriedOnlyBy(ns: seq<Node>, k: Key, i: nat) {
    forall j :: 0 <= j < |ns| && j != i ==> !HasKey(ns[j], k)
  }

  lemma {:induction false} KeepsOne(ns: seq<Node>, k: Key, i: nat)
    requires i < |ns| && HasKey(ns[i], k) && CarriedOnlyBy(ns, k, i)
    ensures Keep(ns, k) == [ns[i]]
  {
    var front := ns[..|ns| - 1];
    if i < |front| {
      KeepsOne(front, k, i);
    } else {
      KeepsNothing(front, k);
    }
  }

  lemma {:induction false} KeepsMany(ns: seq<Node>, k: Key, i: nat, n: nat)
    requires i < |ns| && HasKey(ns[i], k) && n < i
    ensures |Keep(ns, k)| >= 1 && (HasKey(ns[n], k) ==> |Keep(ns, k)| >= 2)
  {
    var front := ns[..|ns| - 1];
    if i < |front| {
      KeepsMany(front, k, i, n);
    } else if HasKey(front[n], k) {
      KeepsSome(front, k, n);
    }
  }

  lemma {:induction false} KeepsSome(ns: seq<Node>, k: Key, i: nat)
    requires i < |ns| && HasKey(ns[i], k)
    ensures |Keep(ns, k)| >= 1
  {
    var front := ns[..|ns| - 1];
    if i < |front| {
      KeepsSome(front, k, i);
    }
  }

  /** A key leads to node `i` alone, if and only if no other node carries it. */
  lemma {:induction false} KeepIsUnique(ns: seq<Node>, k: Key, i: nat)
    requires i < |ns| && HasKey(ns[i], k)
    ensures |Keep(ns, k)| == 1 <==> CarriedOnlyBy(ns, k, i)
    ensures CarriedOnlyBy(ns, k, i) ==> Keep(ns, k) == [ns[i]]
  {
    if CarriedOnlyBy(ns, k, i) {
      KeepsOne(ns, k, i);
    } else {
      var j :| 0 <= j < |ns| && j != i && HasKey(ns[j], k);
      KeepsMany(ns, k, if i < j then j else i, if i < j then i else j);
    }
  }

  lemma {:induction false} KeepsNothing(ns: seq<Node>, k: Key)
    requires forall j :: 0 <= j < |ns| ==> !HasKey(ns[j], k)
    ensures Keep(ns, k) == []
  {
    if ns != [] {
      KeepsNothing(ns[..|ns| - 1], k);
    }
  }
}
