/** The path printer (src/utils/utils.h), and the reader it is an inverse of. */
module XPath {
  import opened Seqs
  import opened Gnmi

  /** One step of a printed path: an optional module name, a node name, key predicates. */
  datatype Step = Step(origin: string, name: string, keys: seq<Key>)

  // ---------------------------------------------------------------- strings

  // ---------------------------------------------------------------- printing

  /** The text of one key predicate, followed by `rest`. */
  function KeyThen(k: Key, rest: string): string {
    "[" + (k.name + ("=\"" + (k.value + ("\"]" + rest))))
  }

  /** The text of key predicates, followed by `rest`. */
  function KeysThen(keys: seq<Key>, rest: string): string {
    if keys == [] then rest else KeyThen(keys[0], KeysThen(keys[1..], rest))
  }

  /** The text `origin:name` (or just `name`), followed by `rest`. */
  function LabelThen(origin: string, name: string, rest: string): string {
    if origin == "" then name + rest else origin + (":" + (name + rest))
  }

  function StepThen(s: Step, rest: string): string {
    "/" + LabelThen(s.origin, s.name, KeysThen(s.keys, rest))
  }

  /** The text of a list of steps, followed by `rest`. */
  function StepsThen(ss: seq<Step>, rest: string): string {
    if ss == [] then rest else StepThen(ss[0], StepsThen(ss[1..], rest))
  }

  /** The steps of a gNMI path: only the first one carries the origin. */
  function StepsOf(p: Path): (ss: seq<Step>)
    ensures |ss| == |p.elems|
  {
    seq(|p.elems|, i requires 0 <= i < |p.elems| =>
      Step(if i == 0 then p.origin else "", p.elems[i].name, p.elems[i].keys))
  }

  function XPathOf(p: Path): string {
    StepsThen(StepsOf(p), "")
  }

  lemma {:induction false} KeysThenPlus(keys: seq<Key>, x: string, y: string)
    ensures KeysThen(keys, x) + y == KeysThen(keys, x + y)
  {
    if keys != [] {
      KeysThenPlus(keys[1..], x, y);
      KeyThenPlus(keys[0], KeysThen(keys[1..], x), y);
    }
  }

  lemma KeyThenPlus(k: Key, x: string, y: string)
    ensures KeyThen(k, x) + y == KeyThen(k, x + y)
  {
    Assoc("\"]", x, y);
    Assoc(k.value, "\"]" + x, y);
    Assoc("=\"", k.value + ("\"]" + x), y);
    Assoc(k.name, "=\"" + (k.value + ("\"]" + x)), y);
    Assoc("[", k.name + ("=\"" + (k.value + ("\"]" + x))), y);
  }

  lemma LabelThenPlus(origin: string, name: string, x: string, y: string)
    ensures LabelThen(origin, name, x) + y == LabelThen(origin, name, x + y)
  {
    Assoc(name, x, y);
    if origin != "" {
      Assoc(":", name + x, y);
      Assoc(origin, ":" + (name + x), y);
    }
  }

  lemma StepThenPlus(s: Step, x: string, y: string)
    ensures StepThen(s, x) + y == StepThen(s, x + y)
  {
    KeysThenPlus(s.keys, x, y);
    var k := KeysThen(s.keys, x);
    LabelThenPlus(s.origin, s.name, k, y);
    Assoc("/", LabelThen(s.origin, s.name, k), y);
  }

  lemma StepsThenCons(s: Step, ss: seq<Step>, rest: string)
    ensures StepsThen([s] + ss, rest) == StepThen(s, StepsThen(ss, rest))
  {
    assert ([s] + ss)[1..] == ss;
  }

  /** Texts of two lists of steps, one after the other, are the text of the joined list. */
  lemma {:induction false} StepsJoin(a: seq<Step>, b: seq<Step>)
    ensures StepsThen(a, "") + StepsThen(b, "") == StepsThen(a + b, "")
  {
    if a == [] {
      EmptyLeft(b);
      EmptyLeft(StepsThen(b, ""));
    } else {
      StepsJoin(a[1..], b);
      StepsJoinOne(a[0], a[1..], b);
      ConsAppend(a, b);
    }
  }

  lemma StepsJoinOne(s: Step, a: seq<Step>, b: seq<Step>)
    requires StepsThen(a, "") + StepsThen(b, "") == StepsThen(a + b, "")
    ensures StepThen(s, StepsThen(a, "")) + StepsThen(b, "") == StepsThen([s] + (a + b), "")
  {
    StepThenPlus(s, StepsThen(a, ""), StepsThen(b, ""));
    StepsThenCons(s, a + b, "");
  }

  /** Appending the five pieces of one key predicate, as the printer's inner loop does. */
  lemma AppendKey(str: string, keys: seq<Key>, rest: string)
    requires keys != []
    ensures (str + "[" + keys[0].name + "=\"" + keys[0].value + "\"]") + KeysThen(keys[1..], rest)
         == str + KeysThen(keys, rest)
  {
    var t := KeysThen(keys[1..], rest);
    var n, v := keys[0].name, keys[0].value;
    Assoc(str + "[" + n + "=\"" + v, "\"]", t);
    Assoc(str + "[" + n + "=\"", v, "\"]" + t);
    Assoc(str + "[" + n, "=\"", v + ("\"]" + t));
    Assoc(str + "[", n, "=\"" + (v + ("\"]" + t)));
    Assoc(str, "[", n + ("=\"" + (v + ("\"]" + t))));
  }

  /** gnmi_to_xpath: one pass that appends to a string and flips a first-element flag. */
  method GnmiToXPath(path: Path) returns (str: string)
    ensures str == XPathOf(path)
  {
    str := "";
    var first := true;
    if |path.elems| <= 0 {
      return;
    }
    ghost var steps := StepsOf(path);
    for i := 0 to |path.elems|
      invariant first <==> i == 0
      invariant str + StepsThen(steps[i..], "") == XPathOf(path)
    {
      var node := path.elems[i];
      ghost var rest := StepsThen(steps[i + 1..], "");
      ghost var labelled := LabelThen(steps[i].origin, steps[i].name, KeysThen(node.keys, rest));
      assert steps[i..][1..] == steps[i + 1..];
      assert str + ("/" + labelled) == XPathOf(path);
      Assoc(str, "/", labelled);
      str := str + "/";
      if first {
        first := false;
        if path.origin != "" {
          Assoc(str, path.origin, ":" + (node.name + KeysThen(node.keys, rest)));
          Assoc(str + path.origin, ":", node.name + KeysThen(node.keys, rest));
          str := str + path.origin + ":";
        }
      }
      assert str + (node.name + KeysThen(node.keys, rest)) == XPathOf(path);
      Assoc(str, node.name, KeysThen(node.keys, rest));
      str := str + node.name;
      for j := 0 to |node.keys|
        invariant str + KeysThen(node.keys[j..], rest) == XPathOf(path)
      {
        var key := node.keys[j];
        AppendKey(str, node.keys[j..], rest);
        assert node.keys[j..][1..] == node.keys[j + 1..];
        str := str + "[" + key.name + "=\"" + key.value + "\"]";
      }
    }
  }

  // ---------------------------------------------------------------- concatenation

  /** Printing is injective in the origin once the elements are fixed. */
  lemma OriginShowsInPrint(o1: string, o2: string, elems: seq<PathElem>)
    requires elems != []
    ensures XPathOf(Path(o1, elems)) == XPathOf(Path(o2, elems)) <==> o1 == o2
  {
    var s1, s2 := StepsOf(Path(o1, elems)), StepsOf(Path(o2, elems));
    assert s1[1..] == s2[1..];
    var k := KeysThen(elems[0].keys, StepsThen(s1[1..], ""));
    var n := elems[0].name + k;
    CancelLeft("/", LabelThen(o1, elems[0].name, k), LabelThen(o2, elems[0].name, k));
    Assoc(o1, ":", n);
    Assoc(o2, ":", n);
    if o1 != "" && o2 != "" {
      CancelRight(o1 + ":", o2 + ":", n);
      CancelRight(o1, o2, ":");
    }
  }

  /** Prefix text followed by path text is the text of the joined path, exactly when the
      path brings no origin of its own (or no element to print it on). */
  lemma PrefixHomomorphism(prefix: Path, path: Path)
    ensures XPathOf(prefix) + XPathOf(path) == XPathOf(Path(prefix.origin, prefix.elems + path.elems))
       <==> (path.elems == [] || path.origin == (if prefix.elems == [] then prefix.origin else ""))
  {
    var joined := Path(prefix.origin, prefix.elems + path.elems);
    var plain := Path(if prefix.elems == [] then prefix.origin else "", path.elems);
    assert StepsOf(joined) == StepsOf(prefix) + StepsOf(plain);
    StepsJoin(StepsOf(prefix), StepsOf(plain));
    CancelLeft(XPathOf(prefix), XPathOf(path), XPathOf(plain));
    if path.elems == [] {
      assert StepsOf(path) == StepsOf(plain) == [];
    } else {
      OriginShowsInPrint(path.origin, plain.origin, path.elems);
    }
  }

  // ---------------------------------------------------------------- reading back

  predicate Free(s: string, stop: string) {
    forall i :: 0 <= i < |s| ==> s[i] !in stop
  }

  /** Splits `s` before its first character that is in `stop`. */
  function Span(s: string, stop: string): (r: (string, string))
    ensures |r.1| <= |s|
  {
    if s == "" || s[0] in stop then ("", s)
    else
      var (front, rest) := Span(s[1..], stop);
      ([s[0]] + front, rest)
  }

  /** Removes the literal `lit` from the front of `s`, if it is there. */
  function Expect(lit: string, s: string): (r: Option<string>)
    ensures r.Some? ==> |r.value| == |s| - |lit|
  {
    if lit == "" then Some(s)
    else if s == "" || s[0] != lit[0] then None
    else Expect(lit[1..], s[1..])
  }

  /** Reads `[name="value"]...` and returns what follows. */
  function ReadKeys(s: string): (r: Option<(seq<Key>, string)>)
    ensures r.Some? ==> |r.value.1| <= |s|
    decreases |s|
  {
    match Expect("[", s)
    case None => Some(([], s))
    case Some(body) =>
      var (name, afterName) := Span(body, "=");
      match Expect("=\"", afterName)
      case None => None
      case Some(quoted) =>
        var (value, afterValue) := Span(quoted, "\"");
        match Expect("\"]", afterValue)
        case None => None
        case Some(tail) =>
          match ReadKeys(tail)
          case None => None
          case Some((keys, rest)) => Some(([Key(name, value)] + keys, rest))
  }

  /** Splits `origin:name`; a label holds at most one colon, and not as its first character. */
  function ReadLabel(s: string): Option<(string, string)> {
    var (origin, after) := Span(s, ":");
    match Expect(":", after)
    case None => Some(("", s))
    case Some(name) =>
      if origin == "" || Span(name, ":").1 != "" then None else Some((origin, name))
  }

  function ReadSteps(s: string): Option<seq<Step>>
    decreases |s|
  {
    if s == "" then Some([])
    else
      match Expect("/", s)
      case None => None
      case Some(body) =>
        var (front, afterLabel) := Span(body, "/[");
        match ReadLabel(front)
        case None => None
        case Some((origin, name)) =>
          match ReadKeys(afterLabel)
          case None => None
          case Some((keys, rest)) =>
            match ReadSteps(rest)
            case None => None
            case Some(more) => Some([Step(origin, name, keys)] + more)
  }

  predicate CleanKey(k: Key) {
    Free(k.name, "=") && Free(k.value, "\"")
  }

  predicate CleanStep(s: Step) {
    && Free(s.origin, "/[:")
    && Free(s.name, "/[:")
    && forall i :: 0 <= i < |s.keys| ==> CleanKey(s.keys[i])
  }

  predicate Clean(ss: seq<Step>) {
    forall i :: 0 <= i < |ss| ==> CleanStep(ss[i])
  }

  /** Names hold no `/`, `[` or `:`, the origin neither, key names no `=`, key values no `"`. */
  predicate CleanPath(p: Path) {
    Clean(StepsOf(p))
  }

  predicate StartsIn(s: string, stop: string) {
    s == "" || s[0] in stop
  }

  lemma {:induction false} SpanAppend(a: string, b: string, stop: string)
    requires Free(a, stop) && StartsIn(b, stop)
    ensures Span(a + b, stop) == (a, b)
  {
    if a == "" {
      assert a + b == b;
    } else {
      assert (a + b)[1..] == a[1..] + b;
      SpanAppend(a[1..], b, stop);
      assert [a[0]] + a[1..] == a;
    }
  }

  lemma {:induction false} SpanSplits(s: string, stop: string)
    ensures var (a, b) := Span(s, stop);
            s == a + b && Free(a, stop) && StartsIn(b, stop)
  {
    if s != "" && s[0] !in stop {
      SpanSplits(s[1..], stop);
      var (a, b) := Span(s[1..], stop);
      assert s == [s[0]] + s[1..];
      Assoc([s[0]], a, b);
    }
  }

  lemma {:induction false} ExpectAppend(lit: string, s: string)
    ensures Expect(lit, lit + s) == Some(s)
  {
    if lit == "" {
      assert lit + s == s;
    } else {
      assert (lit + s)[1..] == lit[1..] + s;
      ExpectAppend(lit[1..], s);
    }
  }

  lemma {:induction false} ExpectSplits(lit: string, s: string)
    requires Expect(lit, s).Some?
    ensures s == lit + Expect(lit, s).value
  {
    if lit != "" {
      ExpectSplits(lit[1..], s[1..]);
    }
  }

  /** One round of ReadKeys, on the pieces the printer wrote. */
  lemma ReadOneKey(k: Key, tail: string)
    requires CleanKey(k)
    ensures ReadKeys(KeyThen(k, tail)) == match ReadKeys(tail)
                                          case None => None
                                          case Some((keys, rest)) => Some(([k] + keys, rest))
  {
    var closing := "\"]" + tail;
    var opening := "=\"" + (k.value + closing);
    ExpectAppend("[", k.name + opening);
    SpanAppend(k.name, opening, "=");
    ExpectAppend("=\"", k.value + closing);
    SpanAppend(k.value, closing, "\"");
    ExpectAppend("\"]", tail);
  }

  lemma {:induction false} ReadKeysPrint(keys: seq<Key>, rest: string)
    requires forall i :: 0 <= i < |keys| ==> CleanKey(keys[i])
    requires StartsIn(rest, "/")
    ensures ReadKeys(KeysThen(keys, rest)) == Some((keys, rest))
  {
    if keys != [] {
      ReadOneKey(keys[0], KeysThen(keys[1..], rest));
      ReadKeysPrint(keys[1..], rest);
      assert [keys[0]] + keys[1..] == keys;
    }
  }

  function Label(origin: string, name: string): string {
    if origin == "" then name else origin + (":" + name)
  }

  lemma LabelThenIsLabel(origin: string, name: string, rest: string)
    ensures LabelThen(origin, name, rest) == Label(origin, name) + rest
  {
    Assoc(":", name, rest);
    Assoc(origin, ":" + name, rest);
  }

  lemma ReadLabelPrint(origin: string, name: string)
    requires Free(origin, "/[:") && Free(name, "/[:")
    ensures ReadLabel(Label(origin, name)) == Some((origin, name))
    ensures Free(Label(origin, name), "/[")
  {
    assert Free(origin, ":") && Free(name, ":");
    SpanAppend(name, "", ":");
    assert name + "" == name;
    if origin != "" {
      SpanAppend(origin, ":" + name, ":");
      ExpectAppend(":", name);
    }
  }

  /** One round of ReadSteps, on the pieces the printer wrote. */
  lemma {:induction false} ReadPieces(s: Step, front: string, keys: string, tail: string)
    requires Free(front, "/[") && StartsIn(keys, "/[")
    requires ReadLabel(front) == Some((s.origin, s.name)) && ReadKeys(keys) == Some((s.keys, tail))
    ensures ReadSteps("/" + (front + keys)) == match ReadSteps(tail)
                                               case None => None
                                               case Some(more) => Some([s] + more)
  {
    ExpectAppend("/", front + keys);
    SpanAppend(front, keys, "/[");
  }

  lemma ReadOneStep(s: Step, tail: string)
    requires CleanStep(s) && StartsIn(tail, "/")
    ensures ReadSteps(StepThen(s, tail)) == match ReadSteps(tail)
                                            case None => None
                                            case Some(more) => Some([s] + more)
  {
    var k, l := KeysThen(s.keys, tail), Label(s.origin, s.name);
    LabelThenIsLabel(s.origin, s.name, k);
    ReadLabelPrint(s.origin, s.name);
    ReadKeysPrint(s.keys, tail);
    ReadPieces(s, l, k, tail);
  }

  /** The reader recovers every clean list of steps from its text, key order included. */
  lemma {:induction false} ReadPrint(ss: seq<Step>)
    requires Clean(ss)
    ensures ReadSteps(StepsThen(ss, "")) == Some(ss) && StartsIn(StepsThen(ss, ""), "/")
  {
    if ss != [] {
      ReadPrint(ss[1..]);
      ReadOneStep(ss[0], StepsThen(ss[1..], ""));
      assert [ss[0]] + ss[1..] == ss;
    }
  }

  /** One round of ReadKeys, on a text it accepts. */
  lemma {:induction false} SplitOneKey(s: string) returns (k: Key, tail: string)
    requires ReadKeys(s).Some? && Expect("[", s).Some?
    ensures CleanKey(k) && |tail| < |s| && ReadKeys(tail).Some?
    ensures s == KeyThen(k, tail)
    ensures ReadKeys(s).value == ([k] + ReadKeys(tail).value.0, ReadKeys(tail).value.1)
  {
    var body := Expect("[", s).value;
    ExpectSplits("[", s);
    var (name, afterName) := Span(body, "=");
    SpanSplits(body, "=");
    var quoted := Expect("=\"", afterName).value;
    ExpectSplits("=\"", afterName);
    var (value, afterValue) := Span(quoted, "\"");
    SpanSplits(quoted, "\"");
    tail := Expect("\"]", afterValue).value;
    ExpectSplits("\"]", afterValue);
    k := Key(name, value);
  }

  lemma ConsKey(k: Key, keys: seq<Key>, rest: string)
    ensures KeysThen([k] + keys, rest) == KeyThen(k, KeysThen(keys, rest))
  {
    assert ([k] + keys)[1..] == keys;
  }

  lemma {:induction false} PrintReadKeys(s: string)
    requires ReadKeys(s).Some?
    ensures var (keys, rest) := ReadKeys(s).value;
            KeysThen(keys, rest) == s && forall i :: 0 <= i < |keys| ==> CleanKey(keys[i])
    decreases |s|
  {
    if Expect("[", s).Some? {
      var k, tail := SplitOneKey(s);
      PrintReadKeys(tail);
      ConsKey(k, ReadKeys(tail).value.0, ReadKeys(tail).value.1);
    }
  }

  lemma ReadLabelIsClean(s: string)
    requires ReadLabel(s).Some? && Free(s, "/[")
    ensures var (origin, name) := ReadLabel(s).value;
            Label(origin, name) == s && Free(origin, "/[:") && Free(name, "/[:")
  {
    var (front, after) := Span(s, ":");
    SpanSplits(s, ":");
    if Expect(":", after).Some? {
      var name := Expect(":", after).value;
      ExpectSplits(":", after);
      SpanSplits(name, ":");
      var (whole, none) := Span(name, ":");
      assert whole + "" == whole;
      assert forall i :: 0 <= i < |front| ==> front[i] == s[i];
      assert forall i :: 0 <= i < |name| ==> name[i] == s[|front| + 1 + i];
    } else {
      assert after == "" by {
        if after != "" {
          ExpectAppend(":", after[1..]);
        }
      }
      assert front + "" == front;
    }
  }

  /** Whatever the reader accepts is the text of the steps it returns, and they are clean. */
  lemma {:induction false} PrintRead(s: string)
    requires ReadSteps(s).Some?
    ensures StepsThen(ReadSteps(s).value, "") == s && Clean(ReadSteps(s).value)
    decreases |s|
  {
    if s != "" {
      var st, rest := SplitOneStep(s);
      PrintRead(rest);
      StepsThenCons(st, ReadSteps(rest).value, "");
    }
  }

  /** One round of ReadSteps, on a text it accepts. */
  lemma {:induction false} SplitOneStep(s: string) returns (st: Step, rest: string)
    requires ReadSteps(s).Some? && s != ""
    ensures CleanStep(st) && |rest| < |s| && ReadSteps(rest).Some?
    ensures s == StepThen(st, rest) && ReadSteps(s).value == [st] + ReadSteps(rest).value
  {
    var body := Expect("/", s).value;
    ExpectSplits("/", s);
    var (front, tail) := Span(body, "/[");
    SpanSplits(body, "/[");
    var (origin, name) := ReadLabel(front).value;
    ReadLabelIsClean(front);
    var (keys, after) := ReadKeys(tail).value;
    PrintReadKeys(tail);
    LabelThenIsLabel(origin, name, tail);
    st, rest := Step(origin, name, keys), after;
  }

  /** A text is accepted if and only if it is the text of some clean steps. */
  lemma ReadAcceptsExactlyPrinted(s: string)
    ensures ReadSteps(s).Some? <==> exists ss :: Clean(ss) && StepsThen(ss, "") == s
  {
    if ReadSteps(s).Some? {
      PrintRead(s);
    }
    forall ss | Clean(ss) && StepsThen(ss, "") == s
      ensures ReadSteps(s) == Some(ss)
    {
      ReadPrint(ss);
    }
  }

  /** The path a list of steps denotes, when only its first step carries an origin. */
  function PathOf(ss: seq<Step>): Path {
    Path(if ss == [] then "" else ss[0].origin,
         seq(|ss|, i requires 0 <= i < |ss| => PathElem(ss[i].name, ss[i].keys)))
  }

  /** Path round trip: every non-empty clean path is recovered from its xpath. */
  lemma PathRoundTrip(p: Path)
    requires p.elems != [] && CleanPath(p)
    ensures ReadSteps(XPathOf(p)).Some? && PathOf(ReadSteps(XPathOf(p)).value) == p
  {
    ReadPrint(StepsOf(p));
    assert PathOf(StepsOf(p)).elems == p.elems;
  }

  /** A prefix and a path, each with its own origin, are read back as their joined steps. */
  lemma ReadPrefixed(prefix: Path, path: Path)
    requires CleanPath(prefix) && CleanPath(path)
    ensures ReadSteps(XPathOf(prefix) + XPathOf(path)) == Some(StepsOf(prefix) + StepsOf(path))
  {
    StepsJoin(StepsOf(prefix), StepsOf(path));
    ReadPrint(StepsOf(prefix) + StepsOf(path));
  }

  // ---------------------------------------------------------------- paths under a prefix

  /** What an optional prefix contributes to an xpath, and to its steps. */
  function PrefixText(prefix: Option<Path>): string {
    if prefix.Some? then XPathOf(prefix.value) else ""
  }

  function PrefixSteps(prefix: Option<Path>): seq<Step> {
    if prefix.Some? then StepsOf(prefix.value) else []
  }

  predicate CleanPrefix(prefix: Option<Path>) {
    prefix.Some? ==> CleanPath(prefix.value)
  }

  /** Under an optional prefix, a path is read as the prefix's steps followed by its own. */
  lemma ReadUnderPrefix(prefix: Option<Path>, path: Path)
    requires CleanPrefix(prefix) && CleanPath(path)
    ensures ReadSteps(PrefixText(prefix) + XPathOf(path)) == Some(PrefixSteps(prefix) + StepsOf(path))
  {
    if prefix.Some? {
      ReadPrefixed(prefix.value, path);
    } else {
      ReadPrint(StepsOf(path));
      EmptyLeft(XPathOf(path));
      EmptyLeft(StepsOf(path));
    }
  }
}
