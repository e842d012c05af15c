/** Get's answers address exactly what they hold: each update can be asked for again. */
module SelfAddressing {
  import opened Seqs
  import opened Gnmi
  import opened XPath
  import opened Json
  import opened Reader
  import opened Messages
  import opened Get
  import opened Selection

  /** A list instance with one key: its first child is the key leaf, and no other child has
      the key's name.  Decimal64 keys are out: their JSON text is that of a double. */
  predicate WellKeyed(t: Node) {
    && t.List?
    && t.children != []
    && t.children[0].Leaf?
    && !t.children[0].value.Decimal64?
    && t.children[0].name != ""
    && forall i :: 0 < i < |t.children| ==> t.children[i].name != t.children[0].name
  }

  function KeyOf(t: Node): Key
    requires WellKeyed(t)
  {
    Key(t.children[0].name, TextOf(t.children[0].value))
  }

  predicate Readable(t: Node) {
    WellKeyed(t) && Encode(t.children).Ok?
  }

  predicate AllReadable(ts: seq<Node>) {
    forall i :: 0 <= i < |ts| ==> Readable(ts[i])
  }

  /** The update Get returns for list instance `t`, when asked for `path`. */
  function UpdateOf(path: Path, t: Node): Update
    requires path.elems != [] && Readable(t)
  {
    Update(PutLastKey(path, KeyOf(t)), Some(Encode(t.children).value))
  }

  lemma {:induction false} FirstFieldStays(cs: seq<Node>)
    requires cs != [] && cs[0].Leaf? && Encode(cs).Ok?
    requires forall i :: 0 < i < |cs| ==> cs[i].name != cs[0].name
    ensures Field(Encode(cs).value, cs[0].name) == ScalarJson(cs[0].value)
  {
    if |cs| > 1 {
      FirstFieldStays(cs[..|cs| - 1]);
    } else {
      assert cs[..0] == [];
    }
  }

  /** The pair json_read extracts is the instance's own key. */
  lemma KeyPairIsKey(t: Node)
    requires Readable(t)
    ensures KeyPair(t, Encode(t.children).value) == Ok(KeyOf(t))
  {
    FirstFieldStays(t.children);
  }

  /** The JSON of every leaf, read as text, is the leaf's lexical value; for decimal64 that is
      the text of the double. */
  lemma LeafText(v: Value)
    ensures AsString(ScalarJson(v)) == Ok(TextOf(v))
  {
  }

  lemma HasOwnKeyOnly(t: Node, k: Key)
    requires WellKeyed(t) && k.name == t.children[0].name
    ensures HasKey(t, k) <==> k == KeyOf(t)
  {
    if HasKey(t, k) {
      var i :| 0 <= i < |t.children| && IsLeaf(t.children[i], k);
      assert i == 0;
    }
    if k == KeyOf(t) {
      assert IsLeaf(Kids(t)[0], k);
    }
  }

  function Entry(t: Node): JsonData
    requires Readable(t)
  {
    JsonData(KeyOf(t), Encode(t.children).value)
  }

  function Entries(ts: seq<Node>): seq<JsonData>
    requires AllReadable(ts)
  {
    seq(|ts|, i requires 0 <= i < |ts| => Entry(ts[i]))
  }

  function UpdatesOf(path: Path, ts: seq<Node>): (us: seq<Update>)
    requires path.elems != [] && AllReadable(ts)
    ensures |us| == |ts|
  {
    seq(|ts|, i requires 0 <= i < |ts| => UpdateOf(path, ts[i]))
  }

  lemma {:induction false} ReadTreesIsEntries(ts: seq<Node>)
    requires AllReadable(ts)
    ensures ReadTrees(ts) == Ok(Entries(ts))
  {
    if ts != [] {
      var front, t := ts[..|ts| - 1], ts[|ts| - 1];
      ReadTreesIsEntries(front);
      KeyPairIsKey(t);
      assert Entries(ts) == Entries(front) + [Entry(t)];
    }
  }

  lemma {:induction false} UpdatesForEntries(path: Path, ts: seq<Node>)
    requires path.elems != [] && AllReadable(ts)
    ensures UpdatesFor(path, Entries(ts)) == Ok(UpdatesOf(path, ts))
  {
    if ts != [] {
      var front, t := ts[..|ts| - 1], ts[|ts| - 1];
      UpdatesForEntries(path, front);
      assert Entries(ts)[..|ts| - 1] == Entries(front);
      assert UpdatesOf(path, ts) == UpdatesOf(path, front) + [UpdateOf(path, t)];
    }
  }

  /** Readable list instances are answered one update each, in order. */
  lemma AnswerIsUpdates(path: Path, ts: seq<Node>)
    requires path.elems != [] && AllReadable(ts)
    ensures Answer(path, Trees(ts)) == Ok(UpdatesOf(path, ts))
  {
    ReadTreesIsEntries(ts);
    UpdatesForEntries(path, ts);
  }

  predicate Unkeyed(path: Path) {
    path.elems != [] && path.elems[|path.elems| - 1].keys == []
  }

  /** Steps of a path whose last element was given a key. */
  lemma KeyedSteps(path: Path, k: Key)
    requires Unkeyed(path)
    ensures var ss := StepsOf(path);
            StepsOf(PutLastKey(path, k)) == ss[..|ss| - 1] + [WithKey(ss[|ss| - 1], k)]
  {
    var ss, n := StepsOf(path), |path.elems|;
    var keyed := PutLastKey(path, k);
    assert PutKey([], k) == [k] && ss[n - 1].keys + [k] == [k];
    assert forall i :: 0 <= i < n - 1 ==> keyed.elems[i] == path.elems[i];
  }

  lemma CleanKeyedPath(path: Path, k: Key)
    requires Unkeyed(path) && CleanPath(path) && CleanKey(k)
    ensures CleanPath(PutLastKey(path, k))
  {
    KeyedSteps(path, k);
    assert CleanStep(StepsOf(path)[|path.elems| - 1]);
  }

  /** The path of an update is read back as its own steps if and only if its key is clean: a
      double quote in the key's value, which the printer does not escape, defeats it. */
  lemma KeyedPathReads(prefix: Option<Path>, path: Path, k: Key)
    requires Unkeyed(path) && CleanPath(path) && CleanPrefix(prefix)
    ensures ReadSteps(FullPath(prefix, PutLastKey(path, k))) == Some(PrefixSteps(prefix) + StepsOf(PutLastKey(path, k)))
       <==> CleanKey(k)
  {
    var again := PutLastKey(path, k);
    var ss := PrefixSteps(prefix) + StepsOf(again);
    if CleanKey(k) {
      CleanKeyedPath(path, k);
      ReadUnderPrefix(prefix, again);
    }
    if ReadSteps(FullPath(prefix, again)) == Some(ss) {
      PrintRead(FullPath(prefix, again));
      KeyedSteps(path, k);
      assert CleanStep(ss[|ss| - 1]) && ss[|ss| - 1].keys[0] == k;
    }
  }

  /** The list instances that the request for `path` finds. */
  function Found(sees: Resolver, roots: seq<Node>, prefix: Option<Path>, path: Path): seq<Node>
    requires path.elems != []
  {
    Select(sees, roots, PrefixSteps(prefix) + StepsOf(path))
  }

  /** Asking for an update's own path finds exactly the instances that carry its key. */
  lemma FoundAgain(sees: Resolver, roots: seq<Node>, prefix: Option<Path>, path: Path, k: Key)
    requires Unkeyed(path)
    ensures Found(sees, roots, prefix, PutLastKey(path, k)) == Keep(Found(sees, roots, prefix, path), k)
  {
    var ss := StepsOf(path);
    var front, last := ss[..|ss| - 1], ss[|ss| - 1];
    KeyedSteps(path, k);
    SelectMore(sees, roots, PrefixSteps(prefix) + front, last, k);
    assert ss == front + [last];
    assert PrefixSteps(prefix) + ss == (PrefixSteps(prefix) + front) + [last];
    assert PrefixSteps(prefix) + StepsOf(PutLastKey(path, k)) == (PrefixSteps(prefix) + front) + [WithKey(last, k)];
  }

  /** The answer to a path, on a datastore whose top-level nodes are `roots`. */
  function Reply(sees: Resolver, roots: seq<Node>, prefix: Option<Path>, path: Path): Outcome<seq<Update>> {
    Answer(path, Lookup(sees, roots, FullPath(prefix, path)))
  }

  /** All the instances belong to one schema list, whose key is called `keyName`. */
  predicate OneList(ts: seq<Node>, keyName: string)
    requires AllReadable(ts)
  {
    forall i :: 0 <= i < |ts| ==> KeyOf(ts[i]).name == keyName
  }

  /** No other instance has the key value of the i-th one. */
  predicate UniqueKey(ts: seq<Node>, i: nat)
    requires AllReadable(ts) && i < |ts|
  {
    forall j :: 0 <= j < |ts| && j != i ==> KeyOf(ts[j]) != KeyOf(ts[i])
  }

  lemma {:induction false} KeepReadable(ts: seq<Node>, k: Key)
    requires AllReadable(ts)
    ensures AllReadable(Keep(ts, k))
  {
    if ts != [] {
      KeepReadable(ts[..|ts| - 1], k);
    }
  }

  lemma UniqueKeyKeepsOne(ts: seq<Node>, keyName: string, i: nat)
    requires AllReadable(ts) && OneList(ts, keyName) && i < |ts|
    ensures |Keep(ts, KeyOf(ts[i]))| >= 1
    ensures |Keep(ts, KeyOf(ts[i]))| == 1 <==> UniqueKey(ts, i)
    ensures UniqueKey(ts, i) ==> Keep(ts, KeyOf(ts[i])) == [ts[i]]
  {
    var k := KeyOf(ts[i]);
    forall j | 0 <= j < |ts|
      ensures HasKey(ts[j], k) <==> KeyOf(ts[j]) == k
    {
      assert KeyOf(ts[j]).name == keyName == KeyOf(ts[i]).name;
      HasOwnKeyOnly(ts[j], k);
    }
    KeepIsUnique(ts, k, i);
    KeepsSome(ts, k, i);
  }

  /** A list path is answered with one update per instance found, in order. */
  lemma {:induction false} ReplyIsUpdates(sees: Resolver, roots: seq<Node>, prefix: Option<Path>, path: Path)
    requires path.elems != [] && CleanPath(path) && CleanPrefix(prefix)
    requires Found(sees, roots, prefix, path) != []
    requires AllReadable(Found(sees, roots, prefix, path))
    ensures Reply(sees, roots, prefix, path) == Ok(UpdatesOf(path, Found(sees, roots, prefix, path)))
  {
    ReadUnderPrefix(prefix, path);
    AnswerIsUpdates(path, Found(sees, roots, prefix, path));
  }

  lemma SameKeySameUpdate(path: Path, t: Node, k: Key)
    requires Unkeyed(path) && Readable(t) && k == KeyOf(t)
    ensures UpdateOf(PutLastKey(path, k), t) == UpdateOf(path, t)
  {
    assert PutKey([k], k) == [k];
    var once := PutLastKey(path, k);
    assert PutLastKey(once, k).elems == once.elems;
  }

  /** Self-addressing answers: request an unkeyed list path, then request the path of the
      i-th update under the same prefix.  The second answer is that update alone, if and
      only if no other instance found by the first request has the same key value. */
  lemma {:induction false} SelfAddressing(sees: Resolver, roots: seq<Node>, prefix: Option<Path>, path: Path,
                                          ts: seq<Node>,
                       keyName: string, i: nat)
    requires Unkeyed(path) && CleanPath(path) && CleanPrefix(prefix)
    requires ts == Found(sees, roots, prefix, path)
    requires AllReadable(ts) && OneList(ts, keyName)
    requires i < |ts| && CleanKey(KeyOf(ts[i]))
    ensures var u := UpdateOf(path, ts[i]);
            Reply(sees, roots, prefix, u.path) == Ok([u]) <==> UniqueKey(ts, i)
  {
    var k := KeyOf(ts[i]);
    var again := PutLastKey(path, k);
    ReplyIsUpdates(sees, roots, prefix, path);
    UniqueKeyKeepsOne(ts, keyName, i);
    FoundAgain(sees, roots, prefix, path, k);
    KeepReadable(ts, k);
    CleanKeyedPath(path, k);
    ReplyIsUpdates(sees, roots, prefix, again);
    SameKeySameUpdate(path, ts[i], k);
    if UniqueKey(ts, i) {
      assert UpdatesOf(again, [ts[i]]) == [UpdateOf(again, ts[i])];
    }
  }

  // ---------------------------------------------------------------- from the data's own shape

  /** Two instances of one single-keyed list, told apart by their keys. */
  predicate Apart(a: Node, b: Node) {
    WellKeyed(a) && WellKeyed(b) && KeyOf(a).name == KeyOf(b).name && KeyOf(a) != KeyOf(b)
  }

  predicate Pairwise(ns: seq<Node>) {
    forall i, j :: 0 <= i < j < |ns| ==> Apart(ns[i], ns[j])
  }

  /** Siblings that step `s` can mean are instances of one list, with different keys. */
  predicate KeyedSiblings(sees: Resolver, ns: seq<Node>, s: Step) {
    forall i, j :: 0 <= i < j < |ns| && sees(s.origin, s.name, ns[i]) && sees(s.origin, s.name, ns[j]) ==>
      Apart(ns[i], ns[j])
  }

  /** The lists on the way along `ss` are single-keyed with unique key values.  Nothing is
      said of data that no step of `ss` means. */
  predicate SoundAlong(sees: Resolver, ns: seq<Node>, ss: seq<Step>)
    decreases |ss|
  {
    ss == [] ||
    (&& KeyedSiblings(sees, ns, ss[0])
     && forall j :: 0 <= j < |ns| && Matches(sees, ss[0], ns[j]) ==> SoundAlong(sees, Kids(ns[j]), ss[1..]))
  }

  /** A step that means list instances names their key. */
  predicate KeyedStep(sees: Resolver, ns: seq<Node>, s: Step) {
    forall i :: 0 <= i < |ns| && sees(s.origin, s.name, ns[i]) && WellKeyed(ns[i]) ==>
      exists k :: k in s.keys && k.name == ns[i].children[0].name
  }

  /** Every list above the last step is keyed. */
  predicate KeyedAbove(sees: Resolver, ns: seq<Node>, ss: seq<Step>)
    decreases |ss|
  {
    |ss| <= 1 || (KeyedStep(sees, ns, ss[0]) && KeyedAbove(sees, AllKids(Match(sees, ns, ss[0])), ss[1..]))
  }

  lemma {:induction false} MatchAt(sees: Resolver, ns: seq<Node>, s: Step, i: nat) returns (j: nat)
    requires i < |Match(sees, ns, s)|
    ensures j < |ns| && ns[j] == Match(sees, ns, s)[i] && Matches(sees, s, ns[j])
  {
    var front := ns[..|ns| - 1];
    if i < |Match(sees, front, s)| {
      j := MatchAt(sees, front, s, i);
    } else {
      j := |front|;
    }
  }

  lemma {:induction false} MatchPairwise(sees: Resolver, ns: seq<Node>, s: Step)
    requires KeyedSiblings(sees, ns, s)
    ensures Pairwise(Match(sees, ns, s))
  {
    if ns != [] {
      var front, n := ns[..|ns| - 1], ns[|ns| - 1];
      MatchPairwise(sees, front, s);
      var m := Match(sees, front, s);
      if Matches(sees, s, n) {
        forall i | 0 <= i < |m|
          ensures Apart(m[i], n)
        {
          var j := MatchAt(sees, front, s, i);
          assert sees(s.origin, s.name, ns[j]) && sees(s.origin, s.name, ns[|front|]);
        }
      }
    }
  }

  lemma KeyedStepIsUnique(sees: Resolver, ns: seq<Node>, s: Step)
    requires KeyedSiblings(sees, ns, s) && KeyedStep(sees, ns, s)
    ensures |Match(sees, ns, s)| <= 1
  {
    var m := Match(sees, ns, s);
    MatchPairwise(sees, ns, s);
    if |m| > 1 {
      var i := MatchAt(sees, ns, s, 0);
      var j := MatchAt(sees, ns, s, 1);
      assert Apart(m[0], m[1]);
      var k :| k in s.keys && k.name == ns[i].children[0].name;
      HasOwnKeyOnly(ns[i], k);
      HasOwnKeyOnly(ns[j], k);
    }
  }

  lemma AllKidsOne(n: Node)
    ensures AllKids([n]) == Kids(n)
  {
    assert [n][..0] == [];
    EmptyLeft(Kids(n));
  }

  lemma KidsOfOne(sees: Resolver, ns: seq<Node>, ss: seq<Step>)
    requires ss != [] && SoundAlong(sees, ns, ss) && |Match(sees, ns, ss[0])| <= 1
    ensures SoundAlong(sees, AllKids(Match(sees, ns, ss[0])), ss[1..])
  {
    var m := Match(sees, ns, ss[0]);
    if |m| == 1 {
      var j := MatchAt(sees, ns, ss[0], 0);
      AllKidsOne(ns[j]);
      assert m == [ns[j]];
    }
  }

  lemma {:induction false} SelectPairwise(sees: Resolver, ns: seq<Node>, ss: seq<Step>)
    requires ss != [] && SoundAlong(sees, ns, ss) && KeyedAbove(sees, ns, ss)
    ensures Pairwise(Select(sees, ns, ss))
    decreases |ss|
  {
    if |ss| == 1 {
      MatchPairwise(sees, ns, ss[0]);
    } else {
      KeyedStepIsUnique(sees, ns, ss[0]);
      KidsOfOne(sees, ns, ss);
      SelectPairwise(sees, AllKids(Match(sees, ns, ss[0])), ss[1..]);
    }
  }

  /** When every list above the last element is keyed, and the lists on the way are
      single-keyed with unique key values, every update of the answer is self-addressing. */
  lemma {:induction false} KeyedPathsSelfAddress(sees: Resolver, roots: seq<Node>, prefix: Option<Path>, path: Path,
                                                 ts: seq<Node>, i: nat)
    requires Unkeyed(path) && CleanPath(path) && CleanPrefix(prefix)
    requires SoundAlong(sees, roots, PrefixSteps(prefix) + StepsOf(path))
    requires KeyedAbove(sees, roots, PrefixSteps(prefix) + StepsOf(path))
    requires ts == Found(sees, roots, prefix, path)
    requires AllReadable(ts) && i < |ts| && CleanKey(KeyOf(ts[i]))
    ensures var u := UpdateOf(path, ts[i]);
            Reply(sees, roots, prefix, u.path) == Ok([u])
  {
    SelectPairwise(sees, roots, PrefixSteps(prefix) + StepsOf(path));
    var keyName := KeyOf(ts[i]).name;
    forall j | 0 <= j < |ts|
      ensures KeyOf(ts[j]).name == keyName && (j != i ==> KeyOf(ts[j]) != KeyOf(ts[i]))
    {
      assert if i < j then Apart(ts[i], ts[j]) else if j < i then Apart(ts[j], ts[i]) else true;
    }
    SelfAddressing(sees, roots, prefix, path, ts, keyName, i);
  }
}
