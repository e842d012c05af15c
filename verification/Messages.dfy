/** Notification messages, and how JSON entries become their updates. */
module Messages {
  import opened Gnmi
  import opened Json
  import opened Reader

  /** An update; `val` is None for a message whose value was created but never set. */
  datatype Update = Update(path: Path, val: Option<Json>)

  /** The contents of a notification message. */
  datatype Notice = Notice(timestamp: int, prefix: Option<Path>, updates: seq<Update>, atomic: bool)

  const EMPTY_NOTICE := Notice(0, None, [], false)

  /** A notification message that is filled in place. */
  class Notification {
    var timestamp: int
    var prefix: Option<Path>
    var updates: seq<Update>
    var atomic: bool

    constructor ()
      ensures Contents() == EMPTY_NOTICE
    {
      timestamp, prefix, updates, atomic := 0, None, [], false;
    }

    function Contents(): Notice
      reads this
    {
      Notice(timestamp, prefix, updates, atomic)
    }

    method Clear()
      modifies this
      ensures Contents() == EMPTY_NOTICE
    {
      timestamp, prefix, updates, atomic := 0, None, [], false;
    }
  }

  /** The path with `k` put into the key map of its last element. */
  function PutLastKey(path: Path, k: Key): Path
    requires path.elems != []
  {
    var last := path.elems[|path.elems| - 1];
    path.(elems := path.elems[..|path.elems| - 1] + [last.(keys := PutKey(last.keys, k))])
  }

  /** The update for one entry: a named key pair goes into the last path element. */
  function UpdateFor(path: Path, d: JsonData): Outcome<Update> {
    if d.key.name == "" then Ok(Update(path, Some(d.data)))
    else if path.elems == [] then Throw(Undefined)
    else Ok(Update(PutLastKey(path, d.key), Some(d.data)))
  }

  function UpdatesFor(path: Path, ds: seq<JsonData>): (r: Outcome<seq<Update>>)
    ensures r.Ok? ==> |r.value| == |ds|
  {
    if ds == [] then Ok([])
    else
      var front :- UpdatesFor(path, ds[..|ds| - 1]);
      var u :- UpdateFor(path, ds[|ds| - 1]);
      Ok(front + [u])
  }

  /** The updates that one path makes of the subtrees read for it. */
  function Answer(path: Path, s: Subtrees): Outcome<seq<Update>> {
    var ds :- Read(s);
    UpdatesFor(path, ds)
  }

  /** The status a read exception becomes; exceptions the handlers do not catch escape. */
  function ReadStatus(f: Fault): (s: Status)
    ensures s != OK
  {
    match f
    case InvalidArgument => NOT_FOUND
    case SysrepoException => INVALID_ARGUMENT
    case _ => Escaped(f)
  }

  lemma {:induction false} UpdatesForStops(path: Path, ds: seq<JsonData>, i: nat)
    requires i <= |ds| && UpdatesFor(path, ds[..i]).Throw?
    ensures UpdatesFor(path, ds) == UpdatesFor(path, ds[..i])
    decreases |ds| - i
  {
    if i < |ds| {
      assert ds[..i + 1][..i] == ds[..i];
      UpdatesForStops(path, ds, i + 1);
    } else {
      assert ds[..i] == ds;
    }
  }

  /** Update `i` is made from entry `i` alone. */
  lemma {:induction false} UpdatesForAt(path: Path, ds: seq<JsonData>, i: nat)
    requires UpdatesFor(path, ds).Ok? && i < |ds|
    ensures UpdateFor(path, ds[i]) == Ok(UpdatesFor(path, ds).value[i])
  {
    if i < |ds| - 1 {
      UpdatesForAt(path, ds[..|ds| - 1], i);
    }
  }

  /** A subtree's update holds the JSON of that subtree.  Its path is the one asked for, with
      the key pair of the last list instance read so far put into its last element, if there
      is such an instance and its key has a name. */
  lemma AnswerAt(path: Path, ts: seq<Node>, i: nat)
    requires Answer(path, Trees(ts)).Ok? && i < |ts|
    ensures |Answer(path, Trees(ts)).value| == |ts|
    ensures var u := Answer(path, Trees(ts)).value[i];
            && u.val.Some? && Encode(Kids(ts[i])) == Ok(u.val.value)
            && match LastList(ts, i)
               case None => u.path == path
               case Some(t) =>
                 && t.children != [] && Encode(t.children).Ok?
                 && var text := AsString(Field(Encode(t.children).value, t.children[0].name));
                    text.Ok? &&
                    if t.children[0].name == "" then u.path == path
                    else path.elems != [] && u.path == PutLastKey(path, Key(t.children[0].name, text.value))
  {
    var ds := ReadTrees(ts).value;
    KeysCarryOver(ts, i);
    UpdatesForAt(path, ds, i);
  }

  /** The loop that appends one update per entry, editing the copied path in place. */
  method AddUpdates(notification: Notification, path: Path, jsonVec: seq<JsonData>) returns (thrown: Option<Fault>)
    modifies notification`updates
    ensures match UpdatesFor(path, jsonVec)
            case Ok(us) => thrown == None && notification.updates == old(notification.updates) + us
            case Throw(f) => thrown == Some(f)
  {
    ghost var before := notification.updates;
    ghost var added: seq<Update> := [];
    for i := 0 to |jsonVec|
      invariant UpdatesFor(path, jsonVec[..i]) == Ok(added)
      invariant notification.updates == before + added
    {
      var it := jsonVec[i];
      assert jsonVec[..i + 1][..i] == jsonVec[..i];
      var copied := path;
      if it.key.name != "" {
        if |copied.elems| == 0 {
          UpdatesForStops(path, jsonVec, i + 1);
          return Some(Undefined);
        }
        var idx := |copied.elems| - 1;
        var last := copied.elems[idx];
        copied := copied.(elems := copied.elems[..idx] + [last.(keys := PutKey(last.keys, it.key))]);
      }
      var update := Update(copied, Some(it.data));
      notification.updates := notification.updates + [update];
      added := added + [update];
    }
    assert jsonVec[..|jsonVec|] == jsonVec;
    thrown := None;
  }
}
