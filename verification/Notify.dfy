/** Building the notification of a Subscribe response (src/gnmi/subscribe.cpp:35-166). */
module Notify {
  import opened Seqs
  import opened Gnmi
  import opened XPath
  import opened Json
  import opened Reader
  import opened Messages
  import Clock

  datatype SubMode = SAMPLE | ON_CHANGE | TARGET_DEFINED

  datatype Subscription = Subscription(path: Path, mode: SubMode, interval: nat)

  datatype ListMode = STREAM | ONCE | POLL | OTHER_MODE

  datatype SubscriptionList = SubscriptionList(
    prefix: Option<Path>,
    subs: seq<Subscription>,
    mode: ListMode,
    encoding: Encoding,
    useAliases: bool,
    updatesOnly: bool)

  /** The requests that are not refused outright. */
  predicate Supported(list: SubscriptionList) {
    (list.encoding == JSON || list.encoding == JSON_IETF) && !list.useAliases
  }

  /** One subscription's updates: one without a value, then one per subtree read.  The
      prefix of the list plays no part in what is read. */
  function SubUpdates(answer: (nat, string) -> Subtrees, version: nat, path: Path): Outcome<seq<Update>> {
    var read :- Answer(path, answer(version, XPathOf(path)));
    Ok([Update(path, None)] + read)
  }

  /** What each subscription is read as, when its turn comes: each after a refresh of its own. */
  function Parts(answer: (nat, string) -> Subtrees, version: nat,
                 subs: seq<Subscription>): (ps: seq<Outcome<seq<Update>>>)
    ensures |ps| == |subs|
  {
    seq(|subs|, i requires 0 <= i < |subs| => SubUpdates(answer, version + i + 1, subs[i].path))
  }

  /** The parts one after the other, or the exception of the first that has none. */
  function Gather(parts: seq<Outcome<seq<Update>>>): Outcome<seq<Update>> {
    if parts == [] then Ok([])
    else
      var front :- Gather(parts[..|parts| - 1]);
      var last :- parts[|parts| - 1];
      Ok(front + last)
  }

  function AllUpdates(answer: (nat, string) -> Subtrees, version: nat, subs: seq<Subscription>): Outcome<seq<Update>> {
    Gather(Parts(answer, version, subs))
  }

  /** What a list's notification is built to when the data was refreshed `version` times. */
  datatype Built = Built(updates: seq<Update>) | Failed(status: Status)

  function Build(answer: (nat, string) -> Subtrees, version: nat, list: SubscriptionList): (b: Built)
    ensures b.Failed? ==> b.status != OK
  {
    if !Supported(list) then Failed(UNIMPLEMENTED)
    else
      match AllUpdates(answer, version, list.subs)
      case Ok(us) => Built(us)
      case Throw(f) => Failed(ReadStatus(f))
  }

  lemma {:induction false} GatherStops(parts: seq<Outcome<seq<Update>>>, i: nat)
    requires i <= |parts| && Gather(parts[..i]).Throw?
    ensures Gather(parts) == Gather(parts[..i])
    decreases |parts| - i
  {
    if i < |parts| {
      assert parts[..i + 1][..i] == parts[..i];
      GatherStops(parts, i + 1);
    } else {
      assert parts[..i] == parts;
    }
  }

  /** Subscribe::BuildSubsUpdate. */
  method BuildSubsUpdate(src: DataSource, notification: Notification, path: Path, fullpath: string, encoding: Encoding)
    returns (status: Status)
    modifies src, notification`updates
    ensures src.version == old(src.version) + 1
    ensures encoding == PROTO ==>
              status == OK && notification.updates == old(notification.updates) + [Update(path, None)]
    ensures encoding == BYTES || encoding == ASCII ==> status == UNIMPLEMENTED
    ensures encoding == JSON || encoding == JSON_IETF ==>
              match Answer(path, src.answer(src.version, fullpath))
              case Ok(us) =>
                && status == OK
                && notification.updates == old(notification.updates) + ([Update(path, None)] + us)
              case Throw(f) => status == ReadStatus(f)
  {
    ghost var before := notification.updates;
    notification.updates := notification.updates + [Update(path, None)];
    src.Refresh();
    match encoding {
      case JSON | JSON_IETF =>
        var jsonVec := JsonRead(src, fullpath);
        if jsonVec.Throw? {
          return ReadStatus(jsonVec.fault);
        }
        var thrown := AddUpdates(notification, path, jsonVec.value);
        if thrown.Some? {
          return ReadStatus(thrown.value);
        }
        Assoc(before, [Update(path, None)], UpdatesFor(path, jsonVec.value).value);
      case PROTO =>
      case _ =>
        return UNIMPLEMENTED;
    }
    return OK;
  }

  /** The body of that loop: one subscription, with the xpath of its path alone. */
  method AddSubscription(src: DataSource, notification: Notification, sub: Subscription, encoding: Encoding)
    returns (status: Status)
    requires encoding == JSON || encoding == JSON_IETF
    modifies src, notification`updates
    ensures src.version == old(src.version) + 1
    ensures match SubUpdates(src.answer, src.version, sub.path)
            case Throw(f) => status == ReadStatus(f)
            case Ok(us) => status == OK && notification.updates == old(notification.updates) + us
  {
    var fullpath := GnmiToXPath(sub.path);
    status := BuildSubsUpdate(src, notification, sub.path, fullpath, encoding);
  }

  /** The loop over subscriptions in BuildSubscribeNotification. */
  method AddSubscriptions(src: DataSource, notification: Notification, subs: seq<Subscription>, encoding: Encoding)
    returns (status: Status)
    requires encoding == JSON || encoding == JSON_IETF
    modifies src, notification`updates
    ensures match AllUpdates(src.answer, old(src.version), subs)
            case Throw(f) => status == ReadStatus(f)
            case Ok(us) =>
              && status == OK
              && src.version == old(src.version) + |subs|
              && notification.updates == old(notification.updates) + us
  {
    ghost var before, version, parts := notification.updates, src.version, Parts(src.answer, src.version, subs);
    ghost var added: seq<Update> := [];
    EmptyRight(before);
    for i := 0 to |subs|
      invariant src.version == version + i
      invariant Gather(parts[..i]) == Ok(added)
      invariant notification.updates == before + added
    {
      status := AddSubscription(src, notification, subs[i], encoding);
      assert parts[i] == SubUpdates(src.answer, src.version, subs[i].path);
      assert parts[..i + 1][..i] == parts[..i];
      if status != OK {
        GatherStops(parts, i + 1);
        return;
      }
      Assoc(before, added, parts[i].value);
      added := added + parts[i].value;
    }
    assert parts[..|subs|] == parts;
    return OK;
  }

  /** Subscribe::BuildSubscribeNotification.  It appends to whatever the notification holds. */
  method BuildSubscribeNotification(src: DataSource, clock: Clock.Clock, notification: Notification,
                                    list: SubscriptionList)
    returns (status: Status)
    modifies src, clock, notification
    ensures clock.now >= old(clock.now)
    ensures match Build(src.answer, old(src.version), list)
            case Failed(s) => status == s
            case Built(us) =>
              && status == OK
              && src.version == old(src.version) + |list.subs|
              && notification.updates == old(notification.updates) + us
              && notification.prefix == (if list.prefix.Some? then list.prefix else old(notification.prefix))
              && !notification.atomic
              && old(clock.now) <= notification.timestamp <= clock.now
  {
    match list.encoding {
      case JSON | JSON_IETF =>
      case _ => return UNIMPLEMENTED;
    }
    if list.useAliases {
      return UNIMPLEMENTED;
    }
    notification.timestamp := clock.Now();
    if list.prefix.Some? {
      notification.prefix := list.prefix;
    }
    status := AddSubscriptions(src, notification, list.subs, list.encoding);
    if status != OK {
      return;
    }
    notification.atomic := false;
  }

  // ---------------------------------------------------------------- notification content

  function Values(parts: seq<Outcome<seq<Update>>>): (vs: seq<seq<Update>>)
    requires forall i :: 0 <= i < |parts| ==> parts[i].Ok?
    ensures |vs| == |parts|
  {
    seq(|parts|, i requires 0 <= i < |parts| => parts[i].value)
  }

  lemma {:induction false} GatherIsConcat(parts: seq<Outcome<seq<Update>>>)
    ensures Gather(parts).Ok? <==> forall i :: 0 <= i < |parts| ==> parts[i].Ok?
    ensures Gather(parts).Ok? ==> Gather(parts).value == Concat(Values(parts))
  {
    if parts != [] {
      GatherIsConcat(parts[..|parts| - 1]);
      if Gather(parts).Ok? {
        assert Values(parts)[..|parts| - 1] == Values(parts[..|parts| - 1]);
      }
    }
  }

  lemma {:induction false} FirstFailureDecides(parts: seq<Outcome<seq<Update>>>, k: nat)
    requires k < |parts| && parts[k].Throw?
    requires forall i :: 0 <= i < k ==> parts[i].Ok?
    ensures Gather(parts) == Throw(parts[k].fault)
  {
    GatherIsConcat(parts[..k]);
    assert parts[..k + 1][..k] == parts[..k];
    GatherStops(parts, k + 1);
  }

  /** Notification content: a supported list is built exactly when each subscription can be
      read in its turn; the updates are then the flat map over the subscriptions, in order,
      of one update without a value and the updates read. */
  lemma {:induction false} ContentIsFlatMap(answer: (nat, string) -> Subtrees, version: nat, list: SubscriptionList)
    requires Supported(list)
    ensures var parts := Parts(answer, version, list.subs);
            && (Build(answer, version, list).Built? <==> forall i :: 0 <= i < |parts| ==> parts[i].Ok?)
            && (Build(answer, version, list).Built? ==>
                  Build(answer, version, list).updates == Concat(Values(parts)))
  {
    GatherIsConcat(Parts(answer, version, list.subs));
  }

  /** If subscription `k` is the first that cannot be read, the status is that of its exception. */
  lemma {:induction false} FirstUnreadable(answer: (nat, string) -> Subtrees, version: nat, list: SubscriptionList,
                                           k: nat)
    requires Supported(list) && k < |list.subs|
    requires forall i :: 0 <= i < k ==> Parts(answer, version, list.subs)[i].Ok?
    requires Parts(answer, version, list.subs)[k].Throw?
    ensures Build(answer, version, list) == Failed(ReadStatus(Parts(answer, version, list.subs)[k].fault))
  {
    FirstFailureDecides(Parts(answer, version, list.subs), k);
  }
}
