/** Expansion of a character menu: a graph of items, possibly cyclic, is listed depth first with a
    bound on the number of values, a bound on the depth and a set of items already seen. */
module MenuExpansion {
  import opened Common
  import JavaText

  const MAX_MENU_DEPTH := 32
  const MAX_TEXT := 8192

  /** The identity of an item object. */
  type Id = nat

  datatype Kind =
    | Menu(children: Option<seq<Option<Id>>>)
    | Value(text: Option<string>)
    | Other

  datatype Item = Item(caption: Option<string>, kind: Kind)

  /** What each item reference points at; a null reference is `None`. */
  type Graph = Id -> Item

  datatype Leaf = Leaf(caption: string, value: string, path: seq<string>)

  datatype Fault = InvalidItem | InvalidText | InvalidSubmenu | InvalidType | TooDeep

  /** `normalizedMenuText` */
  function NormalText(text: Option<string>): Option<string> {
    if text.None? || JavaText.IsBlank(text.value) || JavaText.Length(text.value) > MAX_TEXT || JavaText.HasControl(text.value)
    then None
    else Some(JavaText.Strip(text.value))
  }

  /** A text is shown without the white space at its ends; a missing or blank one, one with a control
      character, or one longer than 8192 units before stripping is no text. */
  lemma NormalTextExactly(text: string) returns (i: nat)
    ensures NormalText(None) == None
    ensures NormalText(Some(text)).Some? <==>
              && (exists k :: 0 <= k < |text| && !JavaText.IsWhitespace(text[k]))
              && |JavaText.Units(text)| <= 8192
              && forall k :: 0 <= k < |text| ==> !JavaText.IsControl(text[k])
    ensures var shown := NormalText(Some(text));
            shown.Some? ==>
              && shown.value != [] && i + |shown.value| <= |text| && shown.value == text[i..i + |shown.value|]
              && (forall k :: 0 <= k < i || i + |shown.value| <= k < |text| ==> JavaText.IsWhitespace(text[k]))
              && !JavaText.IsWhitespace(shown.value[0]) && !JavaText.IsWhitespace(shown.value[|shown.value| - 1])
  {
    i := JavaText.StripTakesEnds(text, JavaText.IsWhitespace);
    hide JavaText.IsWhitespace, JavaText.IsControl, JavaText.Units, JavaText.StripWith;
  }

  // -------------------------------------------------------- the full listing

  /** The depth-first listing without any limit: each item met, each value found, each fault. */
  datatype Event = Meet(id: Id) | Found(leaf: Leaf) | Bad(fault: Fault)

  function Listing(g: Graph, items: seq<Option<Id>>, path: seq<string>, depth: nat): seq<Event>
    decreases MAX_MENU_DEPTH + 1 - depth, |items|, 1
  {
    if depth > MAX_MENU_DEPTH then [Bad(TooDeep)] else Siblings(g, items, path, depth)
  }

  function Siblings(g: Graph, items: seq<Option<Id>>, path: seq<string>, depth: nat): seq<Event>
    requires depth <= MAX_MENU_DEPTH
    decreases MAX_MENU_DEPTH + 1 - depth, |items|, 0
  {
    if items == [] then [] else Below(g, items[0], path, depth) + Siblings(g, items[1..], path, depth)
  }

  function Below(g: Graph, item: Option<Id>, path: seq<string>, depth: nat): seq<Event>
    requires depth <= MAX_MENU_DEPTH
    decreases MAX_MENU_DEPTH + 1 - depth, 0, 3
  {
    if item.None? then [Bad(InvalidItem)] else [Meet(item.value)] + Content(g, g(item.value), path, depth)
  }

  function Content(g: Graph, item: Item, path: seq<string>, depth: nat): seq<Event>
    requires depth <= MAX_MENU_DEPTH
    decreases MAX_MENU_DEPTH + 1 - depth, 0, 2
  {
    var caption := NormalText(item.caption);
    if caption.None? then [Bad(InvalidText)]
    else
      match item.kind
      case Menu(None) => [Bad(InvalidSubmenu)]
      case Menu(Some(children)) => Listing(g, children, path + [caption.value], depth + 1)
      case Value(text) =>
        var value := NormalText(text);
        if value.None? then [Bad(InvalidText)] else [Found(Leaf(caption.value, value.value, path))]
      case Other => [Bad(InvalidType)]
  }

  function Leaves(es: seq<Event>): seq<Leaf> {
    if es == [] then []
    else
      var last := es[|es| - 1];
      Leaves(es[..|es| - 1]) + if last.Found? then [last.leaf] else []
  }

  /** Where expansion has to stop: a fault, or an item met before. */
  ghost predicate Defect(es: seq<Event>, i: int) {
    0 <= i < |es| && (es[i].Bad? || (es[i].Meet? && es[i] in es[..i]))
  }

  // ---------------------------------------------------------- what is reached

  /** `chain` leads from `items` through menus to an item with a value; `leaf` is what it shows there,
      with the captions of the menus passed as its path. */
  ghost predicate Leads(g: Graph, items: seq<Option<Id>>, chain: seq<Id>, leaf: Leaf)
    decreases chain
  {
    && chain != [] && Some(chain[0]) in items
    && var item := g(chain[0]);
       if |chain| == 1 then
         && leaf.path == []
         && NormalText(item.caption) == Some(leaf.caption)
         && item.kind.Value? && NormalText(item.kind.text) == Some(leaf.value)
       else
         && leaf.path != []
         && NormalText(item.caption) == Some(leaf.path[0])
         && item.kind.Menu? && item.kind.children.Some?
         && Leads(g, item.kind.children.value, chain[1..], leaf.(path := leaf.path[1..]))
  }

  /** Lower an event's path into an enclosing one. */
  function Under(path: seq<string>, leaf: Leaf): Leaf {
    leaf.(path := path + leaf.path)
  }

  /** Some chain no longer than the remaining depth allows leads to `leaf`, seen from `path`. */
  ghost predicate Reached(g: Graph, items: seq<Option<Id>>, path: seq<string>, depth: nat, leaf: Leaf) {
    exists chain, short :: Leads(g, items, chain, short) && leaf == Under(path, short)
                           && |chain| == |short.path| + 1 <= MAX_MENU_DEPTH + 1 - depth
  }

  lemma LeadsThroughMenu(g: Graph, items: seq<Option<Id>>, id: Id, caption: string, chain: seq<Id>, short: Leaf)
    requires Some(id) in items && NormalText(g(id).caption) == Some(caption)
    requires g(id).kind.Menu? && g(id).kind.children.Some?
    requires Leads(g, g(id).kind.children.value, chain, short)
    ensures Leads(g, items, [id] + chain, short.(path := [caption] + short.path))
  {
    hide NormalText;
    var longer := short.(path := [caption] + short.path);
    assert longer.(path := longer.path[1..]) == short;
    assert ([id] + chain)[1..] == chain;
  }

  lemma ReachedThroughMenu(
    g: Graph, items: seq<Option<Id>>, id: Id, caption: string, path: seq<string>, depth: nat, leaf: Leaf)
    requires Some(id) in items && NormalText(g(id).caption) == Some(caption)
    requires g(id).kind.Menu? && g(id).kind.children.Some?
    requires Reached(g, g(id).kind.children.value, path + [caption], depth + 1, leaf)
    ensures Reached(g, items, path, depth, leaf)
  {
    hide Leads, NormalText;
    var children := g(id).kind.children.value;
    var chain, short :| Leads(g, children, chain, short) && leaf == Under(path + [caption], short)
                        && |chain| == |short.path| + 1 <= MAX_MENU_DEPTH - depth;
    var longer := short.(path := [caption] + short.path);
    LeadsThroughMenu(g, items, id, caption, chain, short);
    assert path + ([caption] + short.path) == path + [caption] + short.path;
    assert Under(path, longer) == leaf;
  }

  lemma ReachedValue(g: Graph, items: seq<Option<Id>>, id: Id, path: seq<string>, depth: nat, leaf: Leaf)
    requires depth <= MAX_MENU_DEPTH
    requires Some(id) in items && g(id).kind.Value? && Content(g, g(id), path, depth) == [Found(leaf)]
    ensures Reached(g, items, path, depth, leaf)
  {
    var short := leaf.(path := []);
    assert path + short.path == path;
    assert Leads(g, items, [id], short);
    assert leaf == Under(path, short);
  }

  lemma {:induction false} ListedIsReached(g: Graph, items: seq<Option<Id>>, path: seq<string>, depth: nat, leaf: Leaf)
    requires depth <= MAX_MENU_DEPTH && Found(leaf) in Siblings(g, items, path, depth)
    ensures Reached(g, items, path, depth, leaf)
    decreases MAX_MENU_DEPTH - depth, |items|
  {
    hide Reached, Leads, NormalText;
    if Found(leaf) in Siblings(g, items[1..], path, depth) {
      ListedIsReached(g, items[1..], path, depth, leaf);
      ReachedFromMore(g, items, path, depth, leaf);
    } else {
      assert Found(leaf) in Below(g, items[0], path, depth);
      var id := items[0].value;
      var events := Content(g, g(id), path, depth);
      assert Found(leaf) in events;
      if g(id).kind.Value? {
        assert events == [Found(leaf)];
        ReachedValue(g, items, id, path, depth, leaf);
      } else {
        var caption := NormalText(g(id).caption).value;
        assert events == Listing(g, g(id).kind.children.value, path + [caption], depth + 1);
        ListedIsReached(g, g(id).kind.children.value, path + [caption], depth + 1, leaf);
        ReachedThroughMenu(g, items, id, caption, path, depth, leaf);
      }
    }
  }

  lemma ReachedFromMore(g: Graph, items: seq<Option<Id>>, path: seq<string>, depth: nat, leaf: Leaf)
    requires items != [] && Reached(g, items[1..], path, depth, leaf)
    ensures Reached(g, items, path, depth, leaf)
  {
    var chain, short :| Leads(g, items[1..], chain, short) && leaf == Under(path, short)
                        && |chain| == |short.path| + 1 <= MAX_MENU_DEPTH + 1 - depth;
    LeadsFromMore(g, items[1..], items, chain, short);
  }

  lemma LeadsFromMore(g: Graph, items: seq<Option<Id>>, more: seq<Option<Id>>, chain: seq<Id>, leaf: Leaf)
    requires Leads(g, items, chain, leaf) && forall item :: item in items ==> item in more
    ensures Leads(g, more, chain, leaf)
  {
  }

  lemma {:induction false} ReachedIsListed(
    g: Graph, items: seq<Option<Id>>, path: seq<string>, depth: nat, chain: seq<Id>, short: Leaf)
    requires Leads(g, items, chain, short) && depth + |chain| <= MAX_MENU_DEPTH + 1
    ensures Found(Under(path, short)) in Siblings(g, items, path, depth)
    decreases MAX_MENU_DEPTH - depth, |items|
  {
    if items[0] != Some(chain[0]) {
      assert Leads(g, items[1..], chain, short);
      ReachedIsListed(g, items[1..], path, depth, chain, short);
    } else {
      var item := g(chain[0]);
      if |chain| == 1 {
        assert Under(path, short) == Leaf(short.caption, short.value, path);
        assert Found(Under(path, short)) in Content(g, item, path, depth);
      } else {
        var rest := short.(path := short.path[1..]);
        var caption := short.path[0];
        ReachedIsListed(g, item.kind.children.value, path + [caption], depth + 1, chain[1..], rest);
        assert Found(Under(path + [caption], rest)) in Content(g, item, path, depth);
        assert Under(path + [caption], rest) == Under(path, short) by {
          assert path + short.path == path + [caption] + short.path[1..];
        }
      }
      assert Found(Under(path, short)) in Content(g, item, path, depth);
      assert Found(Under(path, short)) in Below(g, items[0], path, depth);
    }
  }

  /** The listing of a whole menu holds exactly the values that a chain of at most 32 menus leads to,
      each with the captions of those menus as its path. */
  lemma {:induction false} ListedExactlyReached(g: Graph, items: seq<Option<Id>>, leaf: Leaf)
    ensures Found(leaf) in Listing(g, items, [], 0)
            <==> exists chain :: Leads(g, items, chain, leaf) && |chain| == |leaf.path| + 1 <= 33
  {
    assert Under([], leaf) == leaf;
    if Found(leaf) in Listing(g, items, [], 0) {
      ListedIsReached(g, items, [], 0, leaf);
      var chain, short :| Leads(g, items, chain, short) && leaf == Under([], short)
                          && |chain| == |short.path| + 1 <= MAX_MENU_DEPTH + 1;
      assert short == leaf;
    }
    if chain :| Leads(g, items, chain, leaf) && |chain| == |leaf.path| + 1 <= MAX_MENU_DEPTH + 1 {
      ReachedIsListed(g, items, [], 0, chain, leaf);
    }
  }

  // ------------------------------------------------------- bounded expansion

  datatype Progress = Progress(output: seq<Leaf>, visited: set<Id>, fault: Option<Fault>)

  /** What expansion does with one event of the listing; once full or failed it looks no further. */
  function React(s: Progress, e: Event, maximum: nat): Progress {
    if s.fault.Some? || |s.output| >= maximum then s
    else
      match e
      case Meet(id) =>
        if id in s.visited then s.(fault := Some(InvalidItem)) else s.(visited := s.visited + {id})
      case Found(leaf) => s.(output := s.output + [leaf])
      case Bad(fault) => s.(fault := Some(fault))
  }

  function Consume(s: Progress, es: seq<Event>, maximum: nat): Progress
    decreases es
  {
    if es == [] then s else Consume(React(s, es[0], maximum), es[1..], maximum)
  }

  lemma {:induction false} ConsumeConcat(s: Progress, es: seq<Event>, fs: seq<Event>, maximum: nat)
    ensures Consume(s, es + fs, maximum) == Consume(Consume(s, es, maximum), fs, maximum)
    decreases es
  {
    if es == [] {
      assert es + fs == fs;
    } else {
      assert (es + fs)[1..] == es[1..] + fs;
      ConsumeConcat(React(s, es[0], maximum), es[1..], fs, maximum);
    }
  }

  lemma {:induction false} StoppedStays(s: Progress, es: seq<Event>, maximum: nat)
    requires s.fault.Some? || |s.output| >= maximum
    ensures Consume(s, es, maximum) == s
    decreases es
  {
    if es != [] {
      StoppedStays(s, es[1..], maximum);
    }
  }

  lemma ConsumeOne(s: Progress, e: Event, es: seq<Event>, maximum: nat)
    ensures Consume(s, [e], maximum) == React(s, e, maximum)
    ensures Consume(s, [e] + es, maximum) == Consume(React(s, e, maximum), es, maximum)
  {
    assert ([e] + es)[1..] == es;
  }

  class Expansion {
    var output: seq<Leaf>
    var visited: set<Id>

    constructor ()
      ensures output == [] && visited == {}
    {
      output, visited := [], {};
    }

    /** `appendExpandedMenuValues`; an exception is a fault that every caller passes on. */
    method Append(g: Graph, items: seq<Option<Id>>, path: seq<string>, maximum: nat, depth: nat)
      returns (fault: Option<Fault>)
      requires |output| < maximum
      modifies this
      ensures Progress(output, visited, fault)
              == Consume(Progress(old(output), old(visited), None), Listing(g, items, path, depth), maximum)
      decreases MAX_MENU_DEPTH + 1 - depth, 1
    {
      if depth > MAX_MENU_DEPTH {
        return Some(TooDeep);
      }
      ghost var result := Consume(Progress(output, visited, None), Siblings(g, items, path, depth), maximum);
      assert items[0..] == items;
      var i := 0;
      while i < |items|
        invariant 0 <= i <= |items|
        invariant Consume(Progress(output, visited, None), Siblings(g, items[i..], path, depth), maximum) == result
      {
        ghost var rest := Siblings(g, items[i + 1..], path, depth);
        ghost var here := Progress(output, visited, None);
        if |output| >= maximum {
          StoppedStays(here, Siblings(g, items[i..], path, depth), maximum);
          return None;
        }
        assert items[i..][0] == items[i] && items[i..][1..] == items[i + 1..];
        ConsumeConcat(here, Below(g, items[i], path, depth), rest, maximum);
        fault := AppendItem(g, items[i], path, maximum, depth);
        if fault.Some? {
          StoppedStays(Progress(output, visited, fault), rest, maximum);
          return;
        }
        i := i + 1;
      }
      return None;
    }

    /** The body of that loop. */
    method AppendItem(g: Graph, item: Option<Id>, path: seq<string>, maximum: nat, depth: nat)
      returns (fault: Option<Fault>)
      requires |output| < maximum && depth <= MAX_MENU_DEPTH
      modifies this
      ensures Progress(output, visited, fault)
              == Consume(Progress(old(output), old(visited), None), Below(g, item, path, depth), maximum)
      decreases MAX_MENU_DEPTH + 1 - depth, 0
    {
      hide NormalText, Consume;
      ghost var start := Progress(output, visited, None);
      if item.None? {
        ConsumeOne(start, Bad(InvalidItem), [], maximum);
        return Some(InvalidItem);
      }
      ghost var events := Content(g, g(item.value), path, depth);
      ConsumeOne(start, Meet(item.value), events, maximum);
      if item.value in visited {
        StoppedStays(Progress(output, visited, Some(InvalidItem)), events, maximum);
        return Some(InvalidItem);
      }
      visited := visited + {item.value};
      if |events| == 1 {
        ConsumeOne(Progress(output, visited, None), events[0], [], maximum);
      }
      var caption := NormalText(g(item.value).caption);
      if caption.None? {
        return Some(InvalidText);
      }
      match g(item.value).kind
      case Menu(None) =>
        return Some(InvalidSubmenu);
      case Menu(Some(children)) =>
        fault := Append(g, children, path + [caption.value], maximum, depth + 1);
      case Value(text) =>
        var value := NormalText(text);
        if value.None? {
          return Some(InvalidText);
        }
        output := output + [Leaf(caption.value, value.value, path)];
        return None;
      case Other =>
        return Some(InvalidType);
    }
  }

  // -------------------------------------------------------- what it comes to

  function Start(): Progress {
    Progress([], {}, None)
  }

  /** Some defect lies before the value that would fill the output. */
  ghost predicate Faulty(es: seq<Event>, maximum: nat) {
    exists i :: Defect(es, i) && |Leaves(es[..i])| < maximum
  }

  function FirstOf(leaves: seq<Leaf>, n: nat): seq<Leaf> {
    if |leaves| <= n then leaves else leaves[..n]
  }

  lemma FaultySnoc(es: seq<Event>, e: Event, maximum: nat)
    ensures Faulty(es + [e], maximum)
            <==> Faulty(es, maximum) || (|Leaves(es)| < maximum && (e.Bad? || (e.Meet? && e in es)))
  {
    var more := es + [e];
    assert more[..|es|] == es;
    assert Defect(more, |es|) <==> e.Bad? || (e.Meet? && e in es);
    forall i | 0 <= i < |es|
      ensures Defect(more, i) <==> Defect(es, i)
      ensures more[..i] == es[..i]
    {
      assert more[..i] == es[..i];
    }
    if Faulty(es, maximum) {
      var i :| Defect(es, i) && |Leaves(es[..i])| < maximum;
      assert Defect(more, i);
    }
    if Faulty(more, maximum) {
      var i :| Defect(more, i) && |Leaves(more[..i])| < maximum;
      if i < |es| {
        assert Defect(es, i);
      }
    }
  }

  /** The bounded, identity-checking walk in terms of the full listing alone. */
  lemma {:induction false} ConsumeIsFirstLeaves(es: seq<Event>, maximum: nat)
    ensures var r := Consume(Start(), es, maximum);
            && (r.fault.Some? <==> Faulty(es, maximum))
            && (r.fault.None? ==> r.output == FirstOf(Leaves(es), maximum))
            && (r.fault.None? && |r.output| < maximum ==> forall id :: id in r.visited <==> Meet(id) in es)
  {
    if es != [] {
      var front, e := es[..|es| - 1], es[|es| - 1];
      assert es == front + [e];
      ConsumeIsFirstLeaves(front, maximum);
      ConsumeConcat(Start(), front, [e], maximum);
      FaultySnoc(front, e, maximum);
    }
  }

  /** The fault at a defect: the item's own, or the item was met before. */
  function FaultOf(e: Event): Fault {
    if e.Bad? then e.fault else InvalidItem
  }

  ghost predicate FirstDefect(es: seq<Event>, i: int) {
    Defect(es, i) && forall j :: 0 <= j < i ==> !Defect(es, j)
  }

  /** A failed walk reports the fault of the first defect. */
  lemma {:induction false} ConsumeReportsFirst(es: seq<Event>, maximum: nat)
    ensures var r := Consume(Start(), es, maximum);
            r.fault.Some? ==> exists i :: FirstDefect(es, i) && r.fault.value == FaultOf(es[i])
  {
    if es != [] {
      var front, e := es[..|es| - 1], es[|es| - 1];
      assert es == front + [e];
      ConsumeReportsFirst(front, maximum);
      ConsumeConcat(Start(), front, [e], maximum);
      var before := Consume(Start(), front, maximum);
      DefectsOfFront(front, e);
      if before.fault.Some? {
        var i :| FirstDefect(front, i) && before.fault.value == FaultOf(front[i]);
        assert FirstDefect(es, i);
      } else if Consume(Start(), es, maximum).fault.Some? {
        ConsumeIsFirstLeaves(front, maximum);
        NoDefectYet(front, maximum);
        assert FirstDefect(es, |front|);
      }
    }
  }

  lemma DefectsOfFront(front: seq<Event>, e: Event)
    ensures forall j :: j < |front| ==> (Defect(front + [e], j) <==> Defect(front, j))
    ensures Defect(front + [e], |front|) <==> e.Bad? || (e.Meet? && e in front)
  {
    var es := front + [e];
    assert es[..|front|] == front;
    forall j | 0 <= j < |front|
      ensures Defect(es, j) <==> Defect(front, j)
    {
      assert es[..j] == front[..j];
    }
  }

  /** A walk that is neither faulty nor full has met no defect. */
  lemma NoDefectYet(es: seq<Event>, maximum: nat)
    requires !Faulty(es, maximum) && |Leaves(es)| < maximum
    ensures forall j :: !Defect(es, j)
  {
    forall j | Defect(es, j)
      ensures false
    {
      FewerLeavesBefore(es, j);
    }
  }

  lemma {:induction false} FewerLeavesBefore(es: seq<Event>, j: nat)
    requires j <= |es|
    ensures |Leaves(es[..j])| <= |Leaves(es)|
  {
    if j < |es| {
      FewerLeavesBefore(es[..|es| - 1], j);
      assert es[..|es| - 1][..j] == es[..j];
    } else {
      assert es[..j] == es;
    }
  }

  /** What an item is refused for: no item, a caption or value that is no text, a menu without items, another
      type, or a menu nested 33 deep. */
  lemma FaultsHaveTheirCause(g: Graph, id: Id, path: seq<string>, depth: nat)
    requires depth <= 32
    ensures Below(g, None, path, depth) == [Bad(InvalidItem)]
    ensures var item := g(id);
            var es := Below(g, Some(id), path, depth);
            var captioned := NormalText(item.caption).Some?;
            && |es| >= 1 && es[0] == Meet(id)
            && (!captioned || (item.kind.Value? && NormalText(item.kind.text).None?) ==> es == [Meet(id), Bad(InvalidText)])
            && (captioned && item.kind == Menu(None) ==> es == [Meet(id), Bad(InvalidSubmenu)])
            && (captioned && item.kind.Other? ==> es == [Meet(id), Bad(InvalidType)])
            && (captioned && item.kind.Menu? && item.kind.children.Some? && depth == 32 ==> es == [Meet(id), Bad(TooDeep)])
            && (captioned && item.kind.Value? && NormalText(item.kind.text).Some? ==>
                  es == [Meet(id), Found(Leaf(NormalText(item.caption).value, NormalText(item.kind.text).value, path))])
  {
    hide NormalText;
  }

  lemma {:induction false} LeavesAreFound(es: seq<Event>, leaf: Leaf)
    requires leaf in Leaves(es)
    ensures Found(leaf) in es
  {
    if es[|es| - 1] != Found(leaf) {
      LeavesAreFound(es[..|es| - 1], leaf);
    }
  }

  /** Every value shown has a path of at most 32 captions, those of a chain of menus leading to it. */
  lemma ShownPathsAreChains(g: Graph, items: seq<Option<Id>>, limit: nat, leaf: Leaf)
    requires leaf in FirstOf(Leaves(Listing(g, items, [], 0)), limit)
    ensures |leaf.path| <= 32
    ensures exists chain :: Leads(g, items, chain, leaf) && |chain| == |leaf.path| + 1
  {
    var es := Listing(g, items, [], 0);
    assert leaf in Leaves(es);
    LeavesAreFound(es, leaf);
    ListedExactlyReached(g, items, leaf);
  }

  lemma WalkOfOneMore(es: seq<Event>, limit: nat)
    ensures var r := Consume(Start(), es, limit + 1);
            && (r.fault.Some? <==> exists i :: Defect(es, i) && |Leaves(es[..i])| <= limit)
            && (r.fault.Some? ==> exists i :: FirstDefect(es, i) && r.fault.value == FaultOf(es[i]))
            && (r.fault.None? ==> r.output == FirstOf(Leaves(es), limit + 1))
  {
    hide Consume, Leaves;
    ConsumeIsFirstLeaves(es, limit + 1);
    ConsumeReportsFirst(es, limit + 1);
    assert (exists i :: Defect(es, i) && |Leaves(es[..i])| < limit + 1) <==> exists i :: Defect(es, i) && |Leaves(es[..i])| <= limit;
  }

  lemma FirstOfFirst(leaves: seq<Leaf>, n: nat)
    ensures FirstOf(FirstOf(leaves, n + 1), n) == FirstOf(leaves, n)
    ensures |FirstOf(leaves, n + 1)| > n <==> |leaves| > n
  {
  }

  datatype Expanded = Expanded(values: seq<Leaf>, truncated: bool)

  /** `encodeFieldMenuValues`: the first `limit` values, whether there are more, and a failure exactly
      when a fault or a repeated item is met before the value after the last one shown. */
  method ExpandMenu(g: Graph, items: Option<seq<Option<Id>>>, limit: nat) returns (r: Result<Expanded, Fault>)
    ensures var es := Listing(g, if items.None? then [] else items.value, [], 0);
            && (r.Err? <==> exists i :: Defect(es, i) && |Leaves(es[..i])| <= limit)
            && (r.Err? ==> exists i :: FirstDefect(es, i) && r.error == FaultOf(es[i]))
            && (r.Ok? ==> r.value == Expanded(FirstOf(Leaves(es), limit), |Leaves(es)| > limit))
  {
    hide Defect, FirstDefect, Consume, Leaves, Listing, FirstOf;
    var expanded := if items.None? then [] else items.value;
    var expansion := new Expansion();
    var fault := expansion.Append(g, expanded, [], limit + 1, 0);
    ghost var es := Listing(g, expanded, [], 0);
    WalkOfOneMore(es, limit);
    if fault.Some? {
      return Err(fault.value);
    }
    var all := expansion.output;
    FirstOfFirst(Leaves(es), limit);
    return Ok(Expanded(FirstOf(all, limit), |all| > limit));
  }
}
