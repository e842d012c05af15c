/** Reading subtrees as keyed JSON (Encode::json_read, src/gnmi/encode/json_ietf.cpp). */
module Reader {
  import opened Gnmi
  import opened Decimal
  import opened Json

  /** What get_subtrees answers: some trees, a null pointer, or a sysrepo_exception. */
  datatype Subtrees = Trees(trees: seq<Node>) | NullPointer | Failure

  /** The read side of the sysrepo session.  Other clients may change the data at any time;
      a refresh makes their latest changes visible, so answers depend on how often the
      session was refreshed. */
  class DataSource {
    const answer: (nat, string) -> Subtrees
    var version: nat

    constructor (answer: (nat, string) -> Subtrees)
      ensures this.answer == answer && version == 0
    {
      this.answer := answer;
      version := 0;
    }

    method Refresh()
      modifies this
      ensures version == old(version) + 1
    {
      version := version + 1;
    }

    method GetSubtrees(xpath: string) returns (r: Subtrees)
      ensures r == answer(version, xpath)
    {
      r := answer(version, xpath);
    }
  }

  /** The JSON of one subtree, and the key pair that goes with it. */
  datatype JsonData = JsonData(key: Key, data: Json)

  const NO_KEY := Key("", "")

  /** Json::Value::asString. */
  function AsString(j: Json): Outcome<string> {
    match j
    case Null => Ok("")
    case Number(n) => Ok(PrintInt(n))
    case Text(s) => Ok(s)
    case _ => Throw(Other)
  }

  /** The key pair of list instance `t`, whose children were encoded as `val`. */
  function KeyPair(t: Node, val: Json): Outcome<Key>
    requires t.List?
  {
    if t.children == [] then Throw(Undefined)
    else
      var name := t.children[0].name;
      var value :- AsString(Field(val, name));
      Ok(Key(name, value))
  }

  /** One round of the loop over subtrees; `tmp` is the key pair left by earlier rounds. */
  function ReadTree(tmp: Key, t: Node): Outcome<JsonData> {
    var val :- Encode(Kids(t));
    var key :- if t.List? then KeyPair(t, val) else Ok(tmp);
    Ok(JsonData(key, val))
  }

  function LastKey(ds: seq<JsonData>): Key {
    if ds == [] then NO_KEY else ds[|ds| - 1].key
  }

  function ReadTrees(ts: seq<Node>): (r: Outcome<seq<JsonData>>)
    ensures r.Ok? ==> |r.value| == |ts|
  {
    if ts == [] then Ok([])
    else
      var front :- ReadTrees(ts[..|ts| - 1]);
      var d :- ReadTree(LastKey(front), ts[|ts| - 1]);
      Ok(front + [d])
  }

  function Read(s: Subtrees): Outcome<seq<JsonData>> {
    match s
    case NullPointer => Throw(InvalidArgument)
    case Failure => Throw(SysrepoException)
    case Trees(ts) => ReadTrees(ts)
  }

  lemma {:induction false} ReadTreesStops(ts: seq<Node>, i: nat)
    requires i <= |ts| && ReadTrees(ts[..i]).Throw?
    ensures ReadTrees(ts) == ReadTrees(ts[..i])
    decreases |ts| - i
  {
    if i < |ts| {
      assert ts[..i + 1][..i] == ts[..i];
      ReadTreesStops(ts, i + 1);
    } else {
      assert ts[..i] == ts;
    }
  }

  /** Encode::json_read: one entry per subtree, with the pair `tmp.key` kept between rounds. */
  method JsonRead(src: DataSource, xpath: string) returns (r: Outcome<seq<JsonData>>)
    ensures r == Read(src.answer(src.version, xpath))
  {
    var subtrees := src.GetSubtrees(xpath);
    if subtrees.NullPointer? {
      return Throw(InvalidArgument);
    }
    if subtrees.Failure? {
      return Throw(SysrepoException);
    }
    var ts := subtrees.trees;
    var tmp := JsonData(NO_KEY, Null);
    var jsonVec: seq<JsonData> := [];
    for i := 0 to |ts|
      invariant ReadTrees(ts[..i]) == Ok(jsonVec)
      invariant tmp.key == LastKey(jsonVec)
    {
      assert ts[..i + 1][..i] == ts[..i];
      var val := JsonTree(ts[i]);
      if val.Throw? {
        ReadTreesStops(ts, i + 1);
        return Throw(val.fault);
      }
      if ts[i].List? {
        if ts[i].children == [] {
          ReadTreesStops(ts, i + 1);
          return Throw(Undefined);
        }
        var name := ts[i].children[0].name;
        var value := AsString(Field(val.value, name));
        if value.Throw? {
          ReadTreesStops(ts, i + 1);
          return Throw(value.fault);
        }
        tmp := tmp.(key := Key(name, value.value));
      }
      tmp := tmp.(data := val.value);
      jsonVec := jsonVec + [tmp];
    }
    assert ts[..|ts|] == ts;
    r := Ok(jsonVec);
  }

  /** The last list instance among `ts[..i + 1]`, if there is one. */
  function LastList(ts: seq<Node>, i: nat): (r: Option<Node>)
    requires i < |ts|
    ensures r.Some? ==> r.value.List?
  {
    if ts[i].List? then Some(ts[i])
    else if i == 0 then None
    else LastList(ts, i - 1)
  }

  /** Every entry holds the JSON of its own tree, but the key pair of the last list instance
      read so far: a tree that is no list inherits the pair of an earlier one. */
  lemma {:induction false} KeysCarryOver(ts: seq<Node>, i: nat)
    requires ReadTrees(ts).Ok? && i < |ts|
    ensures Encode(Kids(ts[i])) == Ok(ReadTrees(ts).value[i].data)
    ensures match LastList(ts, i)
            case None => ReadTrees(ts).value[i].key == NO_KEY
            case Some(t) => Encode(Kids(t)).Ok? && KeyPair(t, Encode(Kids(t)).value) == Ok(ReadTrees(ts).value[i].key)
  {
    var front := ts[..|ts| - 1];
    if i < |front| {
      KeysCarryOver(front, i);
      LastListInFront(ts, i);
    } else if i > 0 {
      KeysCarryOver(front, i - 1);
      LastListInFront(ts, i - 1);
    }
  }

  lemma {:induction false} LastListInFront(ts: seq<Node>, i: nat)
    requires i < |ts| - 1
    ensures LastList(ts[..|ts| - 1], i) == LastList(ts, i)
  {
    if i > 0 {
      LastListInFront(ts, i - 1);
    }
  }
}
