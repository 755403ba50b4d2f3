/**
  The swap engine (web/src/htmx/swap-runtime.ts, `insertNodesBefore` and `cleanUpElement` in
  web/src/htmx.ts).

  A node is a number; the page is one table of child lists, updated in place by the two primitive
  operations of the DOM, and read through first child, siblings and parent.  The functions ending in
  -ed give the page after a swap as one splice of a child list; the methods walk the siblings.
 */
module DomSwap {
  import opened Wrappers

  type Node = nat

  datatype Kind = Element(tag: string) | Text | Comment | ShadowRoot | Root

  /**
    `cleaned` are the nodes that were cleaned up, `loadTasks` the nodes that will be processed when the
    swap settles, `settleElts` the elements that settle, all in order.
   */
  datatype Page = Page(
    kids: map<Node, seq<Node>>, parent: map<Node, Node>,
    cleaned: seq<Node>, loadTasks: seq<Node>, settleElts: seq<Node>)

  type Kinds = Node -> Kind

  function Kids(kids: map<Node, seq<Node>>, n: Node): seq<Node> {
    if n in kids then kids[n] else []
  }

  /** The table with the children of `n` set; a list that is there already is left alone. */
  function Put(kids: map<Node, seq<Node>>, n: Node, s: seq<Node>): map<Node, seq<Node>> {
    if Kids(kids, n) == s then kids else kids[n := s]
  }

  predicate NoDuplicates(s: seq<Node>) {
    forall i, j :: 0 <= i < j < |s| ==> s[i] != s[j]
  }

  /** Child lists and parents agree, and no node is twice in a child list. */
  ghost predicate Valid(pg: Page) {
    && (forall p, c :: c in Kids(pg.kids, p) <==> c in pg.parent && pg.parent[c] == p)
    && (forall p :: NoDuplicates(Kids(pg.kids, p)))
  }

  /** The child relation has no cycle: every node ranks above its children. */
  ghost predicate Ranked(kids: map<Node, seq<Node>>, rank: Node -> nat) {
    forall p, c :: p in kids && c in kids[p] ==> rank(c) < rank(p)
  }

  function Index(s: seq<Node>, x: Node): (i: nat)
    requires x in s
    ensures i < |s| && s[i] == x && x !in s[..i]
  {
    if s[0] == x then 0 else 1 + Index(s[1..], x)
  }

  lemma IndexOf(s: seq<Node>, i: nat)
    requires NoDuplicates(s) && i < |s|
    ensures Index(s, s[i]) == i
  {
    var j := Index(s, s[i]);
  }

  predicate IsLoadable(kinds: Kinds, n: Node) {
    !kinds(n).Text? && !kinds(n).Comment?
  }

  function Loadable(kinds: Kinds, ns: seq<Node>): seq<Node> {
    if ns == [] then []
    else Loadable(kinds, ns[..|ns| - 1]) + (if IsLoadable(kinds, ns[|ns| - 1]) then [ns[|ns| - 1]] else [])
  }

  function Elements(kinds: Kinds, ns: seq<Node>): seq<Node> {
    if ns == [] then []
    else Elements(kinds, ns[..|ns| - 1]) + (if kinds(ns[|ns| - 1]).Element? then [ns[|ns| - 1]] else [])
  }

  function Except(ns: seq<Node>, x: Node): seq<Node> {
    if ns == [] then [] else (if ns[0] != x then [ns[0]] else []) + Except(ns[1..], x)
  }

  /** `cleanUpElement`: the node and then, in order, its element children's subtrees. */
  ghost function Clean(kinds: Kinds, kids: map<Node, seq<Node>>, rank: Node -> nat, n: Node): seq<Node>
    requires Ranked(kids, rank)
    decreases rank(n), 1, 0
  {
    [n] + CleanKids(kinds, kids, rank, n, |Kids(kids, n)|)
  }

  /** The same for the first `k` children of `n`. */
  ghost function CleanKids(kinds: Kinds, kids: map<Node, seq<Node>>, rank: Node -> nat, n: Node, k: nat): seq<Node>
    requires Ranked(kids, rank) && k <= |Kids(kids, n)|
    decreases rank(n), 0, k
  {
    if k == 0 then []
    else
      var c := Kids(kids, n)[k - 1];
      CleanKids(kinds, kids, rank, n, k - 1) + (if kinds(c).Element? then Clean(kinds, kids, rank, c) else [])
  }

  ghost function CleanAll(kinds: Kinds, kids: map<Node, seq<Node>>, rank: Node -> nat, ns: seq<Node>): seq<Node>
    requires Ranked(kids, rank)
  {
    if ns == [] then []
    else CleanAll(kinds, kids, rank, ns[..|ns| - 1]) + Clean(kinds, kids, rank, ns[|ns| - 1])
  }

  function Adopted(parent: map<Node, Node>, ns: seq<Node>, p: Node): map<Node, Node> {
    parent + map c | c in ns :: p
  }

  function Orphaned(parent: map<Node, Node>, ns: seq<Node>): map<Node, Node> {
    map c | c in parent && c !in ns :: parent[c]
  }

  // ---- The pages after a swap ----

  /** The children of `fragment` stand, in order, before the child of `p` that was at position `at`. */
  function Inserted(kinds: Kinds, pg: Page, p: Node, at: nat, fragment: Node): Page
    requires at <= |Kids(pg.kids, p)|
  {
    var incoming, ks := Kids(pg.kids, fragment), Kids(pg.kids, p);
    pg.(kids := Put(Put(pg.kids, fragment, []), p, ks[..at] + incoming + ks[at..]),
        parent := Adopted(pg.parent, incoming, p),
        loadTasks := pg.loadTasks + Loadable(kinds, incoming))
  }

  /** The children of `fragment` have replaced those of `target`, which are cleaned up, the first one last. */
  ghost function InnerSwapped(kinds: Kinds, pg: Page, rank: Node -> nat, target: Node, fragment: Node): Page
    requires Ranked(Inserted(kinds, pg, target, 0, fragment).kids, rank)
  {
    var incoming, olds := Kids(pg.kids, fragment), Kids(pg.kids, target);
    var between := Inserted(kinds, pg, target, 0, fragment);
    between.(kids := Put(between.kids, target, incoming),
             parent := Orphaned(between.parent, olds),
             cleaned := pg.cleaned
                        + if olds == [] then [] else CleanAll(kinds, between.kids, rank, olds[1..] + olds[..1]))
  }

  function ParentElt(kinds: Kinds, pg: Page, n: Node): Option<Node> {
    if n in pg.parent && (kinds(pg.parent[n]).Element? || kinds(pg.parent[n]).ShadowRoot?) then Some(pg.parent[n])
      else None
  }

  predicate IsBody(kinds: Kinds, n: Node) {
    kinds(n) == Element("BODY")
  }

  /** Where an outer swap of `target` inserts, if it does: into the body, or before the target. */
  function InsertionPoint(kinds: Kinds, pg: Page, target: Node): (r: Option<(Node, nat)>)
    requires target in pg.parent ==> target in Kids(pg.kids, pg.parent[target])
    ensures r.Some? ==> r.value.1 <= |Kids(pg.kids, r.value.0)|
  {
    if IsBody(kinds, target) then Some((target, 0))
    else
      match ParentElt(kinds, pg, target)
      case None => None
      case Some(p) => Some((p, Index(Kids(pg.kids, p), target)))
  }

  /** The insertion makes no cycle. */
  ghost predicate OuterRanked(kinds: Kinds, pg: Page, rank: Node -> nat, target: Node, fragment: Node)
    requires target in pg.parent ==> target in Kids(pg.kids, pg.parent[target])
  {
    match InsertionPoint(kinds, pg, target)
    case None => true
    case Some((p, at)) => p != fragment && Ranked(Inserted(kinds, pg, p, at, fragment).kids, rank)
  }

  /** The children of `fragment` have replaced `target` among its siblings; they settle in its place. */
  ghost function OuterSwapped(kinds: Kinds, pg: Page, rank: Node -> nat, target: Node, fragment: Node): Page
    requires target in pg.parent ==> target in Kids(pg.kids, pg.parent[target])
    requires OuterRanked(kinds, pg, rank, target, fragment)
  {
    if IsBody(kinds, target) then InnerSwapped(kinds, pg, rank, target, fragment)
    else
      match ParentElt(kinds, pg, target)
      case None => pg
      case Some(p) =>
        var incoming, ks := Kids(pg.kids, fragment), Kids(pg.kids, p);
        var at := Index(ks, target);
        var between := Inserted(kinds, pg, p, at, fragment);
        between.(kids := between.kids[p := ks[..at] + incoming + ks[at + 1..]],
                 parent := Orphaned(between.parent, [target]),
                 cleaned := pg.cleaned + Clean(kinds, between.kids, rank, target),
                 settleElts := Except(pg.settleElts, target) + Elements(kinds, incoming))
  }

  ghost function Deleted(kinds: Kinds, pg: Page, rank: Node -> nat, target: Node): Page
    requires Ranked(pg.kids, rank)
    requires target in pg.parent ==> target in Kids(pg.kids, pg.parent[target])
  {
    var pg1 := pg.(cleaned := pg.cleaned + Clean(kinds, pg.kids, rank, target));
    match ParentElt(kinds, pg, target)
    case None => pg1
    case Some(p) =>
      var ks := Kids(pg.kids, p);
      var at := Index(ks, target);
      pg1.(kids := pg.kids[p := ks[..at] + ks[at + 1..]], parent := Orphaned(pg.parent, [target]))
  }

  // ---- The primitive operations of the DOM ----

  function Without(s: seq<Node>, x: Node): seq<Node>
    requires x in s
  {
    s[..Index(s, x)] + s[Index(s, x) + 1..]
  }

  function Detached(pg: Page, c: Node): Page
    requires c in pg.parent && c in Kids(pg.kids, pg.parent[c])
  {
    var p := pg.parent[c];
    pg.(kids := pg.kids[p := Without(pg.kids[p], c)], parent := Orphaned(pg.parent, [c]))
  }

  function MovedBefore(pg: Page, p: Node, c: Node, ref: Option<Node>): Page
    requires c in pg.parent && c in Kids(pg.kids, pg.parent[c])
    requires ref.Some? ==> ref.value in Kids(Detached(pg, c).kids, p)
  {
    var pg1 := Detached(pg, c);
    var ks := Kids(pg1.kids, p);
    var i := if ref.None? then |ks| else Index(ks, ref.value);
    pg1.(kids := pg1.kids[p := ks[..i] + [c] + ks[i..]], parent := pg1.parent[c := p])
  }

  /** The node behind `n` among its siblings. */
  function NextIn(kids: map<Node, seq<Node>>, parent: map<Node, Node>, n: Node): Option<Node> {
    if n in parent && n in Kids(kids, parent[n]) && Index(Kids(kids, parent[n]), n) + 1 < |Kids(kids, parent[n])| then
      Some(Kids(kids, parent[n])[Index(Kids(kids, parent[n]), n) + 1])
    else None
  }

  // ---- Choosing the style ----

  predicate IsFixed(style: string) {
    style in {"none", "outerHTML", "afterbegin", "beforebegin", "beforeend", "afterend", "delete"}
  }

  /** `handles` says which styles a registered strategy or an extension takes over. */
  predicate IsKnown(style: string, handles: string -> bool) {
    IsFixed(style) || handles(style) || style == "innerHTML"
  }

  /** The style is swapped with, or handed over, or the default style is tried in its place. */
  datatype Dispatch = BuiltIn(style: string) | Delegated(style: string) | Trying(style: string)

  function DispatchStep(d: Dispatch, handles: string -> bool, defaultStyle: string): Dispatch {
    match d
    case Trying(style) =>
      if IsFixed(style) then BuiltIn(style)
      else if handles(style) then Delegated(style)
      else if style == "innerHTML" then BuiltIn(style)
      else Trying(defaultStyle)
    case _ => d
  }

  function DispatchRun(d: Dispatch, handles: string -> bool, defaultStyle: string, k: nat): Dispatch
    decreases k
  {
    if k == 0 then d else DispatchRun(DispatchStep(d, handles, defaultStyle), handles, defaultStyle, k - 1)
  }

  /** What the built-in styles ask of the page: the insertion makes no cycle, a fragment is not its own target. */
  ghost predicate StyleReady(kinds: Kinds, pg: Page, rank: Node -> nat, style: string, target: Node, fragment: Node)
    requires Valid(pg)
  {
    && (style == "outerHTML" ==> OuterRanked(kinds, pg, rank, target, fragment))
    && (style in {"afterbegin", "beforeend", "innerHTML"} ==> target != fragment)
    && (style in {"beforebegin", "afterend"} ==> ParentElt(kinds, pg, target) != Some(fragment))
    && (style == "delete" ==> Ranked(pg.kids, rank))
    && (style == "innerHTML" ==> Ranked(Inserted(kinds, pg, target, 0, fragment).kids, rank))
  }

  /** The page after a built-in style. */
  ghost function StyleSwapped(kinds: Kinds, pg: Page, rank: Node -> nat, style: string, target: Node,
                              fragment: Node): Page
    requires Valid(pg) && StyleReady(kinds, pg, rank, style, target, fragment)
  {
    var p := ParentElt(kinds, pg, target);
    if style == "outerHTML" then OuterSwapped(kinds, pg, rank, target, fragment)
    else if style == "innerHTML" then InnerSwapped(kinds, pg, rank, target, fragment)
    else if style == "afterbegin" then Inserted(kinds, pg, target, 0, fragment)
    else if style == "beforeend" then Inserted(kinds, pg, target, |Kids(pg.kids, target)|, fragment)
    else if style == "beforebegin" && p.Some? then
      Inserted(kinds, pg, p.value, Index(Kids(pg.kids, p.value), target), fragment)
    else if style == "afterend" && p.Some? then
      Inserted(kinds, pg, p.value, Index(Kids(pg.kids, p.value), target) + 1, fragment)
    else if style == "delete" then Deleted(kinds, pg, rank, target)
    else pg
  }

  class Document {
    const kinds: Kinds
    var kids: map<Node, seq<Node>>
    var parent: map<Node, Node>
    var cleaned: seq<Node>
    var loadTasks: seq<Node>
    var settleElts: seq<Node>

    function Abstract(): Page
      reads this
    {
      Page(kids, parent, cleaned, loadTasks, settleElts)
    }

    function FirstChild(n: Node): Option<Node>
      reads this
    {
      if Kids(kids, n) == [] then None else Some(Kids(kids, n)[0])
    }

    function NextSibling(n: Node): Option<Node>
      reads this
    {
      NextIn(kids, parent, n)
    }

    function PreviousSibling(n: Node): Option<Node>
      reads this
    {
      if n in parent && n in Kids(kids, parent[n]) && Index(Kids(kids, parent[n]), n) > 0 then
        Some(Kids(kids, parent[n])[Index(Kids(kids, parent[n]), n) - 1])
      else None
    }

    method InsertBefore(p: Node, child: Node, ref: Option<Node>)
      requires child in parent && child in Kids(kids, parent[child])
      requires ref.Some? ==> ref.value in Kids(Detached(Abstract(), child).kids, p)
      modifies this
      ensures Abstract() == MovedBefore(old(Abstract()), p, child, ref)
    {
      Remove(child);
      var ks := Kids(kids, p);
      var i := if ref.None? then |ks| else Index(ks, ref.value);
      kids := kids[p := ks[..i] + [child] + ks[i..]];
      parent := parent[child := p];
    }

    method Remove(child: Node)
      requires child in parent && child in Kids(kids, parent[child])
      modifies this
      ensures Abstract() == Detached(old(Abstract()), child)
    {
      var p := parent[child];
      kids := kids[p := Without(kids[p], child)];
      parent := Orphaned(parent, [child]);
    }

    method CleanUpElement(n: Node, ghost rank: Node -> nat)
      requires Ranked(kids, rank)
      modifies `cleaned
      ensures cleaned == old(cleaned) + Clean(kinds, kids, rank, n)
      decreases rank(n)
    {
      cleaned := cleaned + [n];
      var children := Kids(kids, n);
      for i := 0 to |children|
        invariant cleaned == old(cleaned) + ([n] + CleanKids(kinds, kids, rank, n, i))
      {
        ghost var before := cleaned;
        if kinds(children[i]).Element? {
          CleanUpElement(children[i], rank);
        }
        CleanNext(old(cleaned), kinds, kids, rank, n, i);
      }
    }

    /** `ref` is the child of `p` at position `at`, if there is one. */
    method InsertNodesBefore(p: Node, ref: Option<Node>, fragment: Node, ghost at: nat)
      requires Valid(Abstract()) && p != fragment && at <= |Kids(kids, p)|
      requires ref == if at < |Kids(kids, p)| then Some(Kids(kids, p)[at]) else None
      modifies this
      ensures Abstract() == Inserted(kinds, old(Abstract()), p, at, fragment)
      ensures Valid(Abstract())
    {
      ghost var pg, incoming, k := Abstract(), Kids(kids, fragment), 0;
      PartOfNone(kinds, pg, p, at, fragment);
      while Kids(kids, fragment) != []
        invariant k <= |incoming| && Abstract() == Part(kinds, pg, p, at, fragment, k)
        decreases |incoming| - k
      {
        PartLeft(kinds, pg, p, at, fragment, k);
        var child := Kids(kids, fragment)[0];
        PartStep(kinds, pg, p, at, fragment, k);
        InsertLoading(p, child, ref);
        k := k + 1;
      }
      PartDone(kinds, pg, p, at, fragment, k);
    }

    /** One insertion, and the load task of what was inserted. */
    method InsertLoading(p: Node, child: Node, ref: Option<Node>)
      requires child in parent && child in Kids(kids, parent[child])
      requires ref.Some? ==> ref.value in Kids(Detached(Abstract(), child).kids, p)
      modifies this
      ensures Abstract() == MovedBefore(old(Abstract()), p, child, ref)
                .(loadTasks := old(loadTasks) + if IsLoadable(kinds, child) then [child] else [])
    {
      InsertBefore(p, child, ref);
      if IsLoadable(kinds, child) {
        loadTasks := loadTasks + [child];
      }
    }

    method SwapAfterBegin(target: Node, fragment: Node)
      requires Valid(Abstract()) && target != fragment
      modifies this
      ensures Abstract() == Inserted(kinds, old(Abstract()), target, 0, fragment) && Valid(Abstract())
    {
      InsertNodesBefore(target, FirstChild(target), fragment, 0);
    }

    method SwapBeforeEnd(target: Node, fragment: Node)
      requires Valid(Abstract()) && target != fragment
      modifies this
      ensures Abstract() == Inserted(kinds, old(Abstract()), target, |Kids(old(kids), target)|, fragment)
                && Valid(Abstract())
    {
      InsertNodesBefore(target, None, fragment, |Kids(kids, target)|);
    }

    /** `ok` is false where the program throws: there is no parent to insert into. */
    method SwapBeforeBegin(target: Node, fragment: Node) returns (ok: bool)
      requires Valid(Abstract()) && ParentElt(kinds, Abstract(), target) != Some(fragment)
      modifies this
      ensures Valid(Abstract())
      ensures var p := old(ParentElt(kinds, Abstract(), target));
              && ok == (p.Some? || old(Kids(kids, fragment)) == [])
              && Abstract() ==
                   if p.None? then old(Abstract())
                   else Inserted(kinds, old(Abstract()), p.value, Index(Kids(old(kids), p.value), target), fragment)
    {
      var p := ParentElt(kinds, Abstract(), target);
      if p.None? {
        return Kids(kids, fragment) == [];
      }
      assert target in Kids(kids, p.value);
      InsertNodesBefore(p.value, Some(target), fragment, Index(Kids(kids, p.value), target));
      return true;
    }

    method SwapAfterEnd(target: Node, fragment: Node) returns (ok: bool)
      requires Valid(Abstract()) && ParentElt(kinds, Abstract(), target) != Some(fragment)
      modifies this
      ensures Valid(Abstract())
      ensures var p := old(ParentElt(kinds, Abstract(), target));
              && ok == (p.Some? || old(Kids(kids, fragment)) == [])
              && Abstract() ==
                   if p.None? then old(Abstract())
                   else Inserted(kinds, old(Abstract()), p.value, Index(Kids(old(kids), p.value), target) + 1, fragment)
    {
      var p := ParentElt(kinds, Abstract(), target);
      if p.None? {
        return Kids(kids, fragment) == [];
      }
      assert target in Kids(kids, p.value);
      InsertNodesBefore(p.value, NextSibling(target), fragment, Index(Kids(kids, p.value), target) + 1);
      return true;
    }

    method SwapDelete(target: Node, ghost rank: Node -> nat)
      requires Valid(Abstract()) && Ranked(kids, rank)
      modifies this
      ensures Abstract() == Deleted(kinds, old(Abstract()), rank, target) && Valid(Abstract())
    {
      CleanUpElement(target, rank);
      var p := ParentElt(kinds, Abstract(), target);
      if p.Some? {
        assert target in Kids(kids, p.value);
        DetachedValid(Abstract(), target);
        Remove(target);
      }
    }

    method CleanUpAndRemove(n: Node, ghost rank: Node -> nat)
      requires Valid(Abstract()) && Ranked(kids, rank) && n in parent && n in Kids(kids, parent[n])
      modifies this
      ensures Abstract() == Detached(old(Abstract()).(cleaned := old(cleaned) + Clean(kinds, old(kids), rank, n)), n)
      ensures Valid(Abstract())
    {
      DetachedValid(Abstract(), n);
      CleanUpElement(n, rank);
      Remove(n);
    }

    /** The loop of `swapInnerHTML` that removes what was there: the first child goes last. */
    method RemoveOldChildren(target: Node, firstChild: Node, ghost rank: Node -> nat, ghost incoming: seq<Node>,
                             ghost olds: seq<Node>)
      requires Emptying(Abstract(), rank, target, incoming, olds) && firstChild == olds[0]
      modifies this
      ensures Abstract() == EmptiedAll(kinds, old(Abstract()), rank, target, incoming, olds) && Valid(Abstract())
    {
      ghost var between, j := Abstract(), 0;
      EmptiedOfNone(kinds, between, rank, target, incoming, olds);
      EmptiedNext(kinds, between, rank, target, incoming, olds, j);
      while NextSibling(firstChild).Some?
        invariant j < |olds| && Valid(Abstract())
        invariant Abstract() == Emptied(kinds, between, rank, target, incoming, olds, j)
        invariant NextSibling(firstChild) == if j + 1 < |olds| then Some(olds[j + 1]) else None
        decreases |olds| - j
      {
        EmptiedStep(kinds, between, rank, target, incoming, olds, j);
        CleanUpAndRemove(NextSibling(firstChild).value, rank);
        j := j + 1;
        EmptiedNext(kinds, between, rank, target, incoming, olds, j);
      }
      EmptiedLast(kinds, between, rank, target, incoming, olds, j);
      CleanUpAndRemove(firstChild, rank);
    }

    method SwapInnerHTML(target: Node, fragment: Node, ghost rank: Node -> nat)
      requires Valid(Abstract()) && target != fragment
      requires Ranked(Inserted(kinds, Abstract(), target, 0, fragment).kids, rank)
      modifies this
      ensures Abstract() == InnerSwapped(kinds, old(Abstract()), rank, target, fragment)
      ensures Valid(Abstract())
    {
      InnerSwappedIs(kinds, Abstract(), rank, target, fragment);
      InsertedInFront(kinds, Abstract(), target, fragment);
      ghost var incoming, olds := Kids(kids, fragment), Kids(kids, target);
      var firstChild := FirstChild(target);
      InsertNodesBefore(target, firstChild, fragment, 0);
      if firstChild.Some? {
        RemoveOldChildren(target, firstChild.value, rank, incoming, olds);
      }
    }

    /** The walk of `swapOuterHTML` over what has been inserted before `target`. */
    method SettleInserted(target: Node, p: Node, first: Option<Node>, ghost at: nat, ghost incoming: seq<Node>)
      requires Valid(Abstract()) && at + |incoming| < |Kids(kids, p)|
      requires Kids(kids, p)[at..at + |incoming|] == incoming && Kids(kids, p)[at + |incoming|] == target
      requires first == Some(Kids(kids, p)[at])
      modifies `settleElts
      ensures settleElts == old(settleElts) + Elements(kinds, incoming)
    {
      InsertedChain(Abstract(), p, at, incoming, target);
      SettleChain(target, first, incoming);
    }

    method SettleChain(target: Node, first: Option<Node>, ghost chain: seq<Node>)
      requires IsChain(kids, parent, chain, target) && first == Some(ChainAt(chain, target, 0))
      modifies `settleElts
      ensures settleElts == old(settleElts) + Elements(kinds, chain)
    {
      var newElt := first;
      ghost var i := 0;
      while newElt.Some? && newElt.value != target
        invariant i <= |chain| && newElt == Some(ChainAt(chain, target, i))
        invariant settleElts == old(settleElts) + Elements(kinds, chain[..i])
        decreases |chain| - i
      {
        assert i < |chain| && FollowsAt(kids, parent, chain, target, i);
        ElementsOneMore(kinds, old(settleElts), chain, i);
        if kinds(newElt.value).Element? {
          settleElts := settleElts + [newElt.value];
        }
        newElt := NextSibling(newElt.value);
        i := i + 1;
      }
      assert i < |chain| ==> FollowsAt(kids, parent, chain, target, i);
      assert chain[..|chain|] == chain;
    }

    method SwapOuterHTML(target: Node, fragment: Node, ghost rank: Node -> nat)
      requires Valid(Abstract()) && OuterRanked(kinds, Abstract(), rank, target, fragment)
      modifies this
      ensures Abstract() == OuterSwapped(kinds, old(Abstract()), rank, target, fragment) && Valid(Abstract())
    {
      if kinds(target) == Element("BODY") {
        SwapInnerHTML(target, fragment, rank);
        return;
      }
      var eltBeforeNewContent := PreviousSibling(target);
      var parentNode := ParentElt(kinds, Abstract(), target);
      if parentNode.None? {
        return;
      }
      SwapOuterIn(parentNode.value, eltBeforeNewContent, target, fragment, rank);
    }

    /**
      The dispatch.  A style that a strategy or an extension handles is handed over, and what that does
      to the page is its own affair; every other dispatch ends in a built-in style.
     */
    method SwapWithStyle(style: string, target: Node, fragment: Node, handles: string -> bool, defaultStyle: string,
                         ghost rank: Node -> nat)
      returns (d: Dispatch, ok: bool)
      requires Valid(Abstract()) && (IsKnown(style, handles) || IsKnown(defaultStyle, handles))
      requires var r := DispatchRun(Trying(style), handles, defaultStyle, 2);
               r.BuiltIn? ==> StyleReady(kinds, Abstract(), rank, r.style, target, fragment)
      modifies this
      ensures Valid(Abstract())
      ensures d == DispatchRun(Trying(style), handles, defaultStyle, 2) && !d.Trying?
      ensures Abstract() == if d.BuiltIn? then
                              StyleSwapped(kinds, old(Abstract()), rank, d.style, target, fragment)
                            else old(Abstract())
      ensures ok == (d.BuiltIn? && d.style in {"beforebegin", "afterend"} ==>
                       old(ParentElt(kinds, Abstract(), target)).Some? || old(Kids(kids, fragment)) == [])
      decreases !IsKnown(style, handles)
    {
      TwoTries(style, handles, defaultStyle);
      d, ok := BuiltIn(style), true;
      if IsFixed(style) {
        ok := SwapFixed(style, target, fragment, rank);
      } else if handles(style) {
        d := Delegated(style);
      } else if style == "innerHTML" {
        SwapInnerHTML(target, fragment, rank);
      } else {
        d, ok := SwapWithStyle(defaultStyle, target, fragment, handles, defaultStyle, rank);
      }
    }

    /** The styles that no strategy and no extension is asked for. */
    method SwapFixed(style: string, target: Node, fragment: Node, ghost rank: Node -> nat) returns (ok: bool)
      requires Valid(Abstract()) && IsFixed(style) && StyleReady(kinds, Abstract(), rank, style, target, fragment)
      modifies this
      ensures Valid(Abstract()) && Abstract() == StyleSwapped(kinds, old(Abstract()), rank, style, target, fragment)
      ensures ok == (style in {"beforebegin", "afterend"} ==>
                       old(ParentElt(kinds, Abstract(), target)).Some? || old(Kids(kids, fragment)) == [])
    {
      ok := true;
      if style == "none" {
      } else if style == "outerHTML" {
        SwapOuterHTML(target, fragment, rank);
      } else if style == "delete" {
        SwapDelete(target, rank);
      } else {
        ok := SwapInsert(style, target, fragment, rank);
      }
    }

    /** The four styles that insert. */
    method SwapInsert(style: string, target: Node, fragment: Node, ghost rank: Node -> nat) returns (ok: bool)
      requires style in {"afterbegin", "beforebegin", "beforeend", "afterend"}
      requires Valid(Abstract()) && StyleReady(kinds, Abstract(), rank, style, target, fragment)
      modifies this
      ensures Valid(Abstract()) && Abstract() == StyleSwapped(kinds, old(Abstract()), rank, style, target, fragment)
      ensures ok == (style in {"beforebegin", "afterend"} ==>
                       old(ParentElt(kinds, Abstract(), target)).Some? || old(Kids(kids, fragment)) == [])
    {
      ok := true;
      if style == "afterbegin" {
        SwapAfterBegin(target, fragment);
      } else if style == "beforebegin" {
        ok := SwapBeforeBegin(target, fragment);
      } else if style == "beforeend" {
        SwapBeforeEnd(target, fragment);
      } else {
        ok := SwapAfterEnd(target, fragment);
      }
    }

    /** The part of `swapOuterHTML` that inserts in front of the target and collects what settles. */
    method InsertSettling(p: Node, eltBeforeNewContent: Option<Node>, target: Node, fragment: Node, ghost at: nat)
      requires Valid(Abstract()) && p != fragment && target in Kids(kids, p) && at == Index(Kids(kids, p), target)
      requires eltBeforeNewContent == if at == 0 then None else Some(Kids(kids, p)[at - 1])
      modifies this
      ensures Abstract() == Settling(kinds, old(Abstract()), p, at, target, fragment)
      ensures Valid(Abstract())
    {
      ghost var pg := Abstract();
      var newElt := InsertInFront(p, eltBeforeNewContent, target, fragment, at);
      ghost var between := Abstract();
      TrimAndSettle(p, newElt, target, at, Kids(pg.kids, fragment));
      ValidSame(between, Abstract());
    }

    /** The insertion, and the first node it left in front of the target. */
    method InsertInFront(p: Node, eltBeforeNewContent: Option<Node>, target: Node, fragment: Node, ghost at: nat)
      returns (newElt: Option<Node>)
      requires Valid(Abstract()) && p != fragment && target in Kids(kids, p) && at == Index(Kids(kids, p), target)
      requires eltBeforeNewContent == if at == 0 then None else Some(Kids(kids, p)[at - 1])
      modifies this
      ensures Abstract() == Inserted(kinds, old(Abstract()), p, at, fragment) && Valid(Abstract())
      ensures InFront(Abstract(), p, at, Kids(old(kids), fragment), target, newElt)
    {
      ghost var pg := Abstract();
      InsertNodesBefore(p, Some(target), fragment, at);
      OuterWalks(kinds, pg, target, p, fragment);
      newElt := FirstNew(p, eltBeforeNewContent);
    }

    /** The target no longer settles; what has been inserted in front of it does. */
    method TrimAndSettle(p: Node, newElt: Option<Node>, target: Node, ghost at: nat, ghost incoming: seq<Node>)
      requires Valid(Abstract()) && InFront(Abstract(), p, at, incoming, target, newElt)
      modifies `settleElts
      ensures settleElts == Except(old(settleElts), target) + Elements(kinds, incoming)
    {
      settleElts := Except(settleElts, target);
      ValidSame(old(Abstract()), Abstract());
      SettleInserted(target, p, newElt, at, incoming);
    }

    /** The node behind what was in front of the target, or the first child. */
    function FirstNew(p: Node, eltBeforeNewContent: Option<Node>): Option<Node>
      reads this
    {
      if eltBeforeNewContent.None? then FirstChild(p) else NextSibling(eltBeforeNewContent.value)
    }

    /** The rest of `swapOuterHTML`: `target` is a child of `p`, behind `eltBeforeNewContent`. */
    method SwapOuterIn(p: Node, eltBeforeNewContent: Option<Node>, target: Node, fragment: Node,
                       ghost rank: Node -> nat)
      requires Valid(Abstract()) && OuterRanked(kinds, Abstract(), rank, target, fragment)
      requires !IsBody(kinds, target) && ParentElt(kinds, Abstract(), target) == Some(p)
      requires eltBeforeNewContent == PreviousSibling(target)
      modifies this
      ensures Abstract() == OuterSwapped(kinds, old(Abstract()), rank, target, fragment) && Valid(Abstract())
    {
      assert target in Kids(kids, p);
      ghost var pg := Abstract();
      InsertSettling(p, eltBeforeNewContent, target, fragment, Index(Kids(kids, p), target));
      OuterEnds(kinds, pg, rank, target, p, fragment);
      CleanUpAndRemove(target, rank);
    }
  }

  function Settling(kinds: Kinds, pg: Page, p: Node, at: nat, target: Node, fragment: Node): Page
    requires at <= |Kids(pg.kids, p)|
  {
    Inserted(kinds, pg, p, at, fragment)
      .(settleElts := Except(pg.settleElts, target) + Elements(kinds, Kids(pg.kids, fragment)))
  }

  /** `incoming` stands at `at` in front of `target`, and `first` is the node at `at`. */
  predicate InFront(pg: Page, p: Node, at: nat, incoming: seq<Node>, target: Node, first: Option<Node>) {
    var ks := Kids(pg.kids, p);
    && at + |incoming| < |ks| && ks[at..at + |incoming|] == incoming && ks[at + |incoming|] == target
    && first == Some(ks[at])
  }

  lemma OuterWalks(kinds: Kinds, pg: Page, target: Node, p: Node, fragment: Node)
    requires p != fragment && target in Kids(pg.kids, p)
    requires Valid(pg) && Valid(Inserted(kinds, pg, p, Index(Kids(pg.kids, p), target), fragment))
    ensures var ks := Kids(pg.kids, p);
            var at := Index(ks, target);
            var after := Inserted(kinds, pg, p, at, fragment);
            && Kids(after.kids, p) != []
            && InFront(after, p, at, Kids(pg.kids, fragment), target,
                       if at == 0 then Some(Kids(after.kids, p)[0]) else NextIn(after.kids, after.parent, ks[at - 1]))
  {
    var ks := Kids(pg.kids, p);
    var at := Index(ks, target);
    InsertedAround(kinds, pg, p, at, fragment);
    if at > 0 {
      NextAt(Inserted(kinds, pg, p, at, fragment), p, at - 1);
    }
  }

  lemma ChildAt(pg: Page, p: Node, i: nat)
    requires Valid(pg) && i < |Kids(pg.kids, p)|
    ensures var x := Kids(pg.kids, p)[i];
            && p in pg.kids && x in pg.kids[p] && x in pg.parent && pg.parent[x] == p
            && Without(pg.kids[p], x) == pg.kids[p][..i] + pg.kids[p][i + 1..]
  {
    assert NoDuplicates(Kids(pg.kids, p));
    assert Kids(pg.kids, p)[i] in Kids(pg.kids, p);
    WithoutAt(Kids(pg.kids, p), i);
  }

  /** Behind the insertion the target is still a child of its parent; without it the list is the splice. */
  lemma TargetLeaves(after: Page, p: Node, ks: seq<Node>, at: nat, incoming: seq<Node>)
    requires Valid(after) && at < |ks| && Kids(after.kids, p) == ks[..at] + incoming + ks[at..]
    ensures p in after.kids && ks[at] in after.kids[p] && ks[at] in after.parent && after.parent[ks[at]] == p
    ensures Without(after.kids[p], ks[at]) == ks[..at] + incoming + ks[at + 1..]
  {
    var ls, i := ks[..at] + incoming + ks[at..], at + |incoming|;
    assert ls[i] == ks[at];
    ChildAt(after, p, i);
    assert ls[..i] == ks[..at] + incoming && ls[i + 1..] == ks[at + 1..];
  }

  lemma OuterEnds(kinds: Kinds, pg: Page, rank: Node -> nat, target: Node, p: Node, fragment: Node)
    requires Valid(pg) && !IsBody(kinds, target) && ParentElt(kinds, pg, target) == Some(p)
               && target in Kids(pg.kids, p)
    requires OuterRanked(kinds, pg, rank, target, fragment)
    requires Valid(Settling(kinds, pg, p, Index(Kids(pg.kids, p), target), target, fragment))
    ensures var between := Settling(kinds, pg, p, Index(Kids(pg.kids, p), target), target, fragment);
            && Ranked(between.kids, rank) && target in between.parent
                 && target in Kids(between.kids, between.parent[target])
            && Detached(between.(cleaned := pg.cleaned + Clean(kinds, between.kids, rank, target)), target)
               == OuterSwapped(kinds, pg, rank, target, fragment)
  {
    var ks, incoming := Kids(pg.kids, p), Kids(pg.kids, fragment);
    var at := Index(ks, target);
    var between := Settling(kinds, pg, p, at, target, fragment);
    InsertedKids(kinds, pg, p, at, fragment);
    TargetLeaves(between, p, ks, at, incoming);
    var cleaned := pg.cleaned + Clean(kinds, between.kids, rank, target);
    DetachedIs(between.(cleaned := cleaned), target, p, ks[..at] + incoming + ks[at + 1..]);
    OuterSwappedIs(kinds, pg, rank, target, p, fragment);
  }

  lemma OuterSwappedIs(kinds: Kinds, pg: Page, rank: Node -> nat, target: Node, p: Node, fragment: Node)
    requires !IsBody(kinds, target) && ParentElt(kinds, pg, target) == Some(p) && target in Kids(pg.kids, p)
    requires target in pg.parent ==> target in Kids(pg.kids, pg.parent[target])
    requires OuterRanked(kinds, pg, rank, target, fragment)
    ensures var ks, incoming := Kids(pg.kids, p), Kids(pg.kids, fragment);
            var at := Index(ks, target);
            var between := Settling(kinds, pg, p, at, target, fragment);
            && p != fragment && Ranked(between.kids, rank)
            && OuterSwapped(kinds, pg, rank, target, fragment) ==
                 between.(kids := between.kids[p := ks[..at] + incoming + ks[at + 1..]],
                          parent := Orphaned(between.parent, [target]),
                          cleaned := pg.cleaned + Clean(kinds, between.kids, rank, target))
  {
  }

  lemma DetachedIs(pg: Page, c: Node, p: Node, rest: seq<Node>)
    requires c in pg.parent && pg.parent[c] == p && p in pg.kids && c in pg.kids[p] && Without(pg.kids[p], c) == rest
    ensures Detached(pg, c) == pg.(kids := pg.kids[p := rest], parent := Orphaned(pg.parent, [c]))
  {
  }

  lemma ValidSame(pg: Page, pg': Page)
    requires Valid(pg) && pg'.kids == pg.kids && pg'.parent == pg.parent
    ensures Valid(pg')
  {
  }

  lemma ElementsOneMore(kinds: Kinds, s: seq<Node>, ns: seq<Node>, i: nat)
    requires i < |ns|
    ensures s + Elements(kinds, ns[..i + 1])
         == s + Elements(kinds, ns[..i]) + if kinds(ns[i]).Element? then [ns[i]] else []
  {
    assert ns[..i + 1][..i] == ns[..i];
  }

  lemma NextAt(pg: Page, p: Node, i: nat)
    requires Valid(pg) && i < |Kids(pg.kids, p)|
    ensures NextIn(pg.kids, pg.parent, Kids(pg.kids, p)[i]) ==
              if i + 1 < |Kids(pg.kids, p)| then Some(Kids(pg.kids, p)[i + 1]) else None
  {
    assert NoDuplicates(Kids(pg.kids, p));
    IndexOf(Kids(pg.kids, p), i);
    assert Kids(pg.kids, p)[i] in Kids(pg.kids, p);
  }

  function ChainAt(chain: seq<Node>, target: Node, i: nat): Node
    requires i <= |chain|
  {
    if i < |chain| then chain[i] else target
  }

  /** The nodes of `chain` are siblings one behind the other, and `target` is the first node behind them. */
  predicate IsChain(kids: map<Node, seq<Node>>, parent: map<Node, Node>, chain: seq<Node>, target: Node) {
    forall i :: 0 <= i < |chain| ==> FollowsAt(kids, parent, chain, target, i)
  }

  predicate FollowsAt(kids: map<Node, seq<Node>>, parent: map<Node, Node>, chain: seq<Node>, target: Node, i: nat)
    requires i < |chain|
  {
    chain[i] != target && NextIn(kids, parent, chain[i]) == Some(ChainAt(chain, target, i + 1))
  }

  lemma WindowAt(ks: seq<Node>, at: nat, incoming: seq<Node>, i: nat)
    requires at + |incoming| < |ks| && ks[at..at + |incoming|] == incoming && i <= |incoming|
    ensures ChainAt(incoming, ks[at + |incoming|], i) == ks[at + i]
  {
    assert i < |incoming| ==> ks[at..at + |incoming|][i] == ks[at + i];
  }

  lemma NextBefore(pg: Page, p: Node, j: nat, m: nat, x: Node, y: Node, target: Node)
    requires Valid(pg) && j < m < |Kids(pg.kids, p)|
    requires Kids(pg.kids, p)[j] == x && Kids(pg.kids, p)[j + 1] == y && Kids(pg.kids, p)[m] == target
    ensures x != target && NextIn(pg.kids, pg.parent, x) == Some(y)
  {
    NextAt(pg, p, j);
    assert NoDuplicates(Kids(pg.kids, p));
  }

  lemma InsertedFollows(pg: Page, p: Node, at: nat, incoming: seq<Node>, i: nat)
    requires Valid(pg) && at + |incoming| < |Kids(pg.kids, p)| && i < |incoming|
    requires Kids(pg.kids, p)[at..at + |incoming|] == incoming
    ensures FollowsAt(pg.kids, pg.parent, incoming, Kids(pg.kids, p)[at + |incoming|], i)
  {
    var ks, n := Kids(pg.kids, p), |incoming|;
    WindowAt(ks, at, incoming, i);
    WindowAt(ks, at, incoming, i + 1);
    NextBefore(pg, p, at + i, at + n, incoming[i], ChainAt(incoming, ks[at + n], i + 1), ks[at + n]);
  }

  lemma InsertedChain(pg: Page, p: Node, at: nat, incoming: seq<Node>, target: Node)
    requires Valid(pg) && at + |incoming| < |Kids(pg.kids, p)|
    requires Kids(pg.kids, p)[at..at + |incoming|] == incoming && Kids(pg.kids, p)[at + |incoming|] == target
    ensures IsChain(pg.kids, pg.parent, incoming, target)
    ensures ChainAt(incoming, target, 0) == Kids(pg.kids, p)[at]
  {
    WindowAt(Kids(pg.kids, p), at, incoming, 0);
    forall i | 0 <= i < |incoming| ensures FollowsAt(pg.kids, pg.parent, incoming, target, i) {
      InsertedFollows(pg, p, at, incoming, i);
    }
  }

  lemma SplicedAround(ks: seq<Node>, at: nat, incoming: seq<Node>)
    requires at < |ks|
    ensures var ls := ks[..at] + incoming + ks[at..];
            && at + |incoming| < |ls| && ls[at + |incoming|] == ks[at] && ls[at..at + |incoming|] == incoming
            && (at > 0 ==> ls[at - 1] == ks[at - 1])
            && ls[..at + |incoming|] + ls[at + |incoming| + 1..] == ks[..at] + incoming + ks[at + 1..]
  {
  }

  lemma InsertedAround(kinds: Kinds, pg: Page, p: Node, at: nat, fragment: Node)
    requires p != fragment && at < |Kids(pg.kids, p)|
    ensures var ls := Kids(Inserted(kinds, pg, p, at, fragment).kids, p);
            var incoming, ks := Kids(pg.kids, fragment), Kids(pg.kids, p);
            && at + |incoming| < |ls| && ls[at + |incoming|] == ks[at] && ls[at..at + |incoming|] == incoming
            && (at > 0 ==> ls[at - 1] == ks[at - 1])
            && ls[..at + |incoming|] + ls[at + |incoming| + 1..] == ks[..at] + incoming + ks[at + 1..]
  {
    InsertedKids(kinds, pg, p, at, fragment);
    SplicedAround(Kids(pg.kids, p), at, Kids(pg.kids, fragment));
  }

  lemma InsertedInFront(kinds: Kinds, pg: Page, target: Node, fragment: Node)
    requires target != fragment
    ensures Kids(Inserted(kinds, pg, target, 0, fragment).kids, target)
              == Kids(pg.kids, fragment) + Kids(pg.kids, target)
  {
    var ks := Kids(pg.kids, target);
    assert ks[..0] + Kids(pg.kids, fragment) + ks[0..] == Kids(pg.kids, fragment) + ks;
  }

  /** The page when all children that were there before `incoming` came are gone. */
  ghost function EmptiedAll(kinds: Kinds, between: Page, rank: Node -> nat, target: Node, incoming: seq<Node>,
                            olds: seq<Node>): Page
    requires Ranked(between.kids, rank) && olds != []
  {
    between.(kids := Put(between.kids, target, incoming), parent := Orphaned(between.parent, olds),
             cleaned := between.cleaned + CleanAll(kinds, between.kids, rank, olds[1..] + olds[..1]))
  }

  lemma InnerSwappedIs(kinds: Kinds, pg: Page, rank: Node -> nat, target: Node, fragment: Node)
    requires target != fragment && Ranked(Inserted(kinds, pg, target, 0, fragment).kids, rank)
    ensures var between, olds := Inserted(kinds, pg, target, 0, fragment), Kids(pg.kids, target);
            InnerSwapped(kinds, pg, rank, target, fragment) ==
              if olds == [] then between else EmptiedAll(kinds, between, rank, target, Kids(pg.kids, fragment), olds)
  {
    var between := Inserted(kinds, pg, target, 0, fragment);
    var olds, incoming := Kids(pg.kids, target), Kids(pg.kids, fragment);
    InsertedKids(kinds, pg, target, 0, fragment);
    if olds == [] {
      assert olds[..0] + incoming + olds[0..] == incoming;
      assert Orphaned(between.parent, olds) == between.parent;
      assert pg.cleaned + [] == pg.cleaned;
    }
  }

  lemma CleanNext(s: seq<Node>, kinds: Kinds, kids: map<Node, seq<Node>>, rank: Node -> nat, n: Node, i: nat)
    requires Ranked(kids, rank) && i < |Kids(kids, n)|
    ensures s + ([n] + CleanKids(kinds, kids, rank, n, i + 1))
         == s + ([n] + CleanKids(kinds, kids, rank, n, i))
            + (if kinds(Kids(kids, n)[i]).Element? then Clean(kinds, kids, rank, Kids(kids, n)[i]) else [])
  {
  }

  // ---- Inserting one child after the other ----

  /** The page when `k` children of `fragment` have been moved. */
  ghost function Part(kinds: Kinds, pg: Page, p: Node, at: nat, fragment: Node, k: nat): Page
    requires at <= |Kids(pg.kids, p)| && k <= |Kids(pg.kids, fragment)|
  {
    var incoming, ks := Kids(pg.kids, fragment), Kids(pg.kids, p);
    pg.(kids := Put(Put(pg.kids, fragment, incoming[k..]), p, ks[..at] + incoming[..k] + ks[at..]),
        parent := Adopted(pg.parent, incoming[..k], p),
        loadTasks := pg.loadTasks + Loadable(kinds, incoming[..k]))
  }

  lemma PartOfNone(kinds: Kinds, pg: Page, p: Node, at: nat, fragment: Node)
    requires at <= |Kids(pg.kids, p)|
    ensures Part(kinds, pg, p, at, fragment, 0) == pg
  {
    var incoming, ks := Kids(pg.kids, fragment), Kids(pg.kids, p);
    assert incoming[0..] == incoming && incoming[..0] == [] && ks[..at] + [] + ks[at..] == ks;
    assert Adopted(pg.parent, [], p) == pg.parent;
  }

  lemma PartOfAll(kinds: Kinds, pg: Page, p: Node, at: nat, fragment: Node)
    requires at <= |Kids(pg.kids, p)|
    ensures Part(kinds, pg, p, at, fragment, |Kids(pg.kids, fragment)|) == Inserted(kinds, pg, p, at, fragment)
  {
    var incoming := Kids(pg.kids, fragment);
    assert incoming[|incoming|..] == [] && incoming[..|incoming|] == incoming;
  }

  lemma PartKids(kinds: Kinds, pg: Page, p: Node, at: nat, fragment: Node, k: nat)
    requires p != fragment && at <= |Kids(pg.kids, p)| && k <= |Kids(pg.kids, fragment)|
    ensures var part := Part(kinds, pg, p, at, fragment, k);
            && Kids(part.kids, fragment) == Kids(pg.kids, fragment)[k..]
            && Kids(part.kids, p) == Kids(pg.kids, p)[..at] + Kids(pg.kids, fragment)[..k] + Kids(pg.kids, p)[at..]
            && forall n :: n != p && n != fragment ==> Kids(part.kids, n) == Kids(pg.kids, n)
  {
  }

  /** The children of the fragment run out with the last part, which is the whole insertion. */
  lemma PartLeft(kinds: Kinds, pg: Page, p: Node, at: nat, fragment: Node, k: nat)
    requires p != fragment && at <= |Kids(pg.kids, p)| && k <= |Kids(pg.kids, fragment)|
    ensures Kids(Part(kinds, pg, p, at, fragment, k).kids, fragment) == [] <==> k == |Kids(pg.kids, fragment)|
  {
    PartKids(kinds, pg, p, at, fragment, k);
  }

  lemma PartDone(kinds: Kinds, pg: Page, p: Node, at: nat, fragment: Node, k: nat)
    requires Valid(pg) && p != fragment && at <= |Kids(pg.kids, p)| && k <= |Kids(pg.kids, fragment)|
    requires Kids(Part(kinds, pg, p, at, fragment, k).kids, fragment) == []
    ensures Part(kinds, pg, p, at, fragment, k) == Inserted(kinds, pg, p, at, fragment)
    ensures Valid(Inserted(kinds, pg, p, at, fragment))
  {
    PartLeft(kinds, pg, p, at, fragment, k);
    PartOfAll(kinds, pg, p, at, fragment);
    PartValid(kinds, pg, p, at, fragment, k);
  }

  lemma SpliceMembers(ks: seq<Node>, at: nat, incoming: seq<Node>)
    requires at <= |ks|
    ensures forall c :: c in ks[..at] + incoming + ks[at..] <==> c in ks || c in incoming
  {
    assert ks == ks[..at] + ks[at..];
  }

  lemma SpliceDistinct(ks: seq<Node>, at: nat, incoming: seq<Node>)
    requires NoDuplicates(ks) && NoDuplicates(incoming) && at <= |ks|
    requires forall c :: c in ks ==> c !in incoming
    ensures NoDuplicates(ks[..at] + incoming + ks[at..])
    ensures forall c :: c in ks[..at] + incoming + ks[at..] <==> c in ks || c in incoming
  {
    SpliceMembers(ks, at, incoming);
    SpliceApart(ks, at, incoming);
  }

  lemma SpliceApart(ks: seq<Node>, at: nat, incoming: seq<Node>)
    requires NoDuplicates(ks) && NoDuplicates(incoming) && at <= |ks|
    requires forall c :: c in ks ==> c !in incoming
    ensures NoDuplicates(ks[..at] + incoming + ks[at..])
  {
    var s, n := ks[..at] + incoming + ks[at..], |incoming|;
    assert forall i :: 0 <= i < |s| ==>
             s[i] == if i < at then ks[i] else if i < at + n then incoming[i - at] else ks[i - n];
    forall i, j | 0 <= i < j < |s| ensures s[i] != s[j] {
      if i < at <= j < at + n {
        assert ks[i] in ks && incoming[j - at] in incoming;
      } else if at <= i < at + n <= j {
        assert incoming[i - at] in incoming && ks[j - n] in ks;
      }
    }
  }

  lemma SplitDistinct(s: seq<Node>, k: nat)
    requires NoDuplicates(s) && k <= |s|
    ensures NoDuplicates(s[..k]) && NoDuplicates(s[k..])
    ensures forall c :: c in s[k..] <==> c in s && c !in s[..k]
    ensures forall c :: c in s[..k] ==> c in s
  {
    forall c ensures c in s[k..] <==> c in s && c !in s[..k] {
      assert s == s[..k] + s[k..];
      if c in s[k..] {
        var i :| k <= i < |s| && s[i] == c;
      }
    }
  }

  lemma KidsDisjoint(pg: Page, p: Node, q: Node, c: Node)
    requires Valid(pg) && p != q && c in Kids(pg.kids, p)
    ensures c !in Kids(pg.kids, q)
  {
    assert pg.parent[c] == p;
  }

  lemma PartLists(kinds: Kinds, pg: Page, p: Node, at: nat, fragment: Node, k: nat)
    requires Valid(pg) && p != fragment && at <= |Kids(pg.kids, p)| && k <= |Kids(pg.kids, fragment)|
    ensures var part, incoming, ks := Part(kinds, pg, p, at, fragment, k), Kids(pg.kids, fragment), Kids(pg.kids, p);
            && (forall c :: c in Kids(part.kids, fragment) <==> c in incoming && c !in incoming[..k])
            && (forall c :: c in Kids(part.kids, p) <==> c in ks || c in incoming[..k])
            && (forall c :: c in incoming[..k] ==> c in incoming)
            && NoDuplicates(Kids(part.kids, fragment)) && NoDuplicates(Kids(part.kids, p))
  {
    var incoming, ks := Kids(pg.kids, fragment), Kids(pg.kids, p);
    assert NoDuplicates(incoming) && NoDuplicates(ks);
    SplitDistinct(incoming, k);
    forall c | c in ks ensures c !in incoming[..k] {
      KidsDisjoint(pg, p, fragment, c);
    }
    SpliceDistinct(ks, at, incoming[..k]);
    PartKids(kinds, pg, p, at, fragment, k);
  }

  lemma PartAgrees(kinds: Kinds, pg: Page, p: Node, at: nat, fragment: Node, k: nat, q: Node, c: Node)
    requires Valid(pg) && p != fragment && at <= |Kids(pg.kids, p)| && k <= |Kids(pg.kids, fragment)|
    ensures var part := Part(kinds, pg, p, at, fragment, k);
            c in Kids(part.kids, q) <==> c in part.parent && part.parent[c] == q
  {
    assert c in Kids(pg.kids, q) <==> c in pg.parent && pg.parent[c] == q;
    assert c in Kids(pg.kids, fragment) <==> c in pg.parent && pg.parent[c] == fragment;
    PartMembers(kinds, pg, p, at, fragment, k, q, c);
  }

  /** Which lists a node is in after `k` insertions. */
  lemma PartMembers(kinds: Kinds, pg: Page, p: Node, at: nat, fragment: Node, k: nat, q: Node, c: Node)
    requires Valid(pg) && p != fragment && at <= |Kids(pg.kids, p)| && k <= |Kids(pg.kids, fragment)|
    ensures var part, moved := Part(kinds, pg, p, at, fragment, k), Kids(pg.kids, fragment)[..k];
            && (c in moved ==> c in Kids(pg.kids, fragment))
            && (c in Kids(part.kids, q) <==> if c in moved then q == p else c in Kids(pg.kids, q))
  {
    if q == fragment || q == p {
      PartLists(kinds, pg, p, at, fragment, k);
    } else {
      PartKids(kinds, pg, p, at, fragment, k);
    }
    if c in Kids(pg.kids, fragment)[..k] && q != fragment {
      assert c in Kids(pg.kids, fragment);
      if c in Kids(pg.kids, q) {
        KidsDisjoint(pg, q, fragment, c);
      }
    }
  }

  lemma PartApart(kinds: Kinds, pg: Page, p: Node, at: nat, fragment: Node, k: nat, q: Node)
    requires Valid(pg) && p != fragment && at <= |Kids(pg.kids, p)| && k <= |Kids(pg.kids, fragment)|
    ensures NoDuplicates(Kids(Part(kinds, pg, p, at, fragment, k).kids, q))
  {
    if q == p || q == fragment {
      PartLists(kinds, pg, p, at, fragment, k);
    } else {
      PartKids(kinds, pg, p, at, fragment, k);
      assert NoDuplicates(Kids(pg.kids, q));
    }
  }

  ghost predicate AgreeAt(pg: Page, q: Node, c: Node) {
    c in Kids(pg.kids, q) <==> c in pg.parent && pg.parent[c] == q
  }

  ghost predicate ApartAt(pg: Page, q: Node) {
    NoDuplicates(Kids(pg.kids, q))
  }

  lemma ValidIf(pg: Page)
    requires (forall q, c :: AgreeAt(pg, q, c)) && forall q :: ApartAt(pg, q)
    ensures Valid(pg)
  {
    forall q, c ensures c in Kids(pg.kids, q) <==> c in pg.parent && pg.parent[c] == q {
      assert AgreeAt(pg, q, c);
    }
    forall q ensures NoDuplicates(Kids(pg.kids, q)) {
      assert ApartAt(pg, q);
    }
  }

  lemma PartValid(kinds: Kinds, pg: Page, p: Node, at: nat, fragment: Node, k: nat)
    requires Valid(pg) && p != fragment && at <= |Kids(pg.kids, p)| && k <= |Kids(pg.kids, fragment)|
    ensures Valid(Part(kinds, pg, p, at, fragment, k))
  {
    forall q, c ensures AgreeAt(Part(kinds, pg, p, at, fragment, k), q, c) {
      PartAgrees(kinds, pg, p, at, fragment, k, q, c);
    }
    forall q ensures ApartAt(Part(kinds, pg, p, at, fragment, k), q) {
      PartApart(kinds, pg, p, at, fragment, k, q);
    }
    ValidIf(Part(kinds, pg, p, at, fragment, k));
  }

  lemma FirstIsFirst(kinds: Kinds, pg: Page, p: Node, at: nat, fragment: Node, k: nat)
    requires Valid(pg) && p != fragment && at <= |Kids(pg.kids, p)| && k < |Kids(pg.kids, fragment)|
    ensures var part, child := Part(kinds, pg, p, at, fragment, k), Kids(pg.kids, fragment)[k];
            && Kids(part.kids, fragment) == Kids(pg.kids, fragment)[k..] && Kids(part.kids, fragment)[0] == child
            && child in part.parent && part.parent[child] == fragment
            && Without(Kids(part.kids, fragment), child) == Kids(pg.kids, fragment)[k + 1..]
  {
    var part, child := Part(kinds, pg, p, at, fragment, k), Kids(pg.kids, fragment)[k];
    PartKids(kinds, pg, p, at, fragment, k);
    PartAgrees(kinds, pg, p, at, fragment, k, fragment, child);
    WithoutFirst(Kids(pg.kids, fragment), k);
  }

  lemma WithoutFirst(s: seq<Node>, k: nat)
    requires k < |s|
    ensures s[k..] != [] && s[k..][0] == s[k] && s[k] in s[k..] && Without(s[k..], s[k]) == s[k + 1..]
  {
    var t := s[k..];
    assert t[0] == s[k] && Index(t, s[k]) == 0;
    assert t[..0] + t[1..] == s[k + 1..];
  }

  /** The reference node stays where it was, behind what has been inserted. */
  lemma ReferenceStays(ks: seq<Node>, at: nat, incoming: seq<Node>, child: Node)
    requires at <= |ks| && NoDuplicates(ks[..at] + incoming + ks[at..])
    ensures var ls := ks[..at] + incoming + ks[at..];
            var i := if at < |ks| then Index(ls, ks[at]) else |ls|;
            ls[..i] + [child] + ls[i..] == ks[..at] + (incoming + [child]) + ks[at..]
    ensures at < |ks| ==> ks[at] in ks[..at] + incoming + ks[at..]
  {
    var ls := ks[..at] + incoming + ks[at..];
    if at < |ks| {
      assert ls[at + |incoming|] == ks[at];
      IndexOf(ls, at + |incoming|);
    }
    assert ls[..at + |incoming|] == ks[..at] + incoming && ls[at + |incoming|..] == ks[at..];
  }

  lemma AdoptedOneMore(parent: map<Node, Node>, ns: seq<Node>, c: Node, p: Node)
    ensures Orphaned(Adopted(parent, ns, p), [c])[c := p] == Adopted(parent, ns + [c], p)
  {
  }

  lemma PutTwice(kids: map<Node, seq<Node>>, f: Node, a: seq<Node>, a': seq<Node>, p: Node, b: seq<Node>, b': seq<Node>)
    requires f != p && a' != Kids(kids, f) && b' != Kids(kids, p)
    ensures Put(Put(kids, f, a), p, b)[f := a'][p := b'] == Put(Put(kids, f, a'), p, b')
  {
  }

  lemma MovedIs(pg: Page, p: Node, c: Node, ref: Option<Node>, f: Node)
    requires c in pg.parent && pg.parent[c] == f && f != p && c in Kids(pg.kids, f)
    requires ref.Some? ==> ref.value in Kids(pg.kids, p)
    ensures ref.Some? ==> ref.value in Kids(Detached(pg, c).kids, p)
    ensures var ls := Kids(pg.kids, p);
            var i := if ref.None? then |ls| else Index(ls, ref.value);
            MovedBefore(pg, p, c, ref) ==
              pg.(kids := pg.kids[f := Without(Kids(pg.kids, f), c)][p := ls[..i] + [c] + ls[i..]],
                  parent := Orphaned(pg.parent, [c])[c := p])
  {
    assert Kids(Detached(pg, c).kids, p) == Kids(pg.kids, p);
  }

  lemma PartReady(kinds: Kinds, pg: Page, p: Node, at: nat, fragment: Node, k: nat)
    requires Valid(pg) && p != fragment && at <= |Kids(pg.kids, p)| && k < |Kids(pg.kids, fragment)|
    ensures var part, ks := Part(kinds, pg, p, at, fragment, k), Kids(pg.kids, p);
            var child := Kids(pg.kids, fragment)[k];
            && Kids(part.kids, fragment) != [] && Kids(part.kids, fragment)[0] == child
            && child in part.parent && part.parent[child] == fragment && child in Kids(part.kids, fragment)
            && (at < |ks| ==> ks[at] in Kids(part.kids, p) && ks[at] in Kids(Detached(part, child).kids, p))
  {
    var part, incoming, ks := Part(kinds, pg, p, at, fragment, k), Kids(pg.kids, fragment), Kids(pg.kids, p);
    FirstIsFirst(kinds, pg, p, at, fragment, k);
    PartKids(kinds, pg, p, at, fragment, k);
    PartLists(kinds, pg, p, at, fragment, k);
    ReferenceStays(ks, at, incoming[..k], incoming[k]);
    assert incoming[k..] != [];
  }

  lemma PartStep(kinds: Kinds, pg: Page, p: Node, at: nat, fragment: Node, k: nat)
    requires Valid(pg) && p != fragment && at <= |Kids(pg.kids, p)| && k < |Kids(pg.kids, fragment)|
    ensures var part, ks := Part(kinds, pg, p, at, fragment, k), Kids(pg.kids, p);
            var ref := if at < |ks| then Some(ks[at]) else None;
            var child := Kids(pg.kids, fragment)[k];
            && Kids(part.kids, fragment) != [] && Kids(part.kids, fragment)[0] == child
            && child in part.parent && part.parent[child] == fragment && child in Kids(part.kids, fragment)
            && (ref.Some? ==> ref.value in Kids(Detached(part, child).kids, p))
            && Part(kinds, pg, p, at, fragment, k + 1) ==
                 MovedBefore(part, p, child, ref)
                 .(loadTasks := part.loadTasks + if IsLoadable(kinds, child) then [child] else [])
  {
    var part, incoming, ks := Part(kinds, pg, p, at, fragment, k), Kids(pg.kids, fragment), Kids(pg.kids, p);
    var ref := if at < |ks| then Some(ks[at]) else None;
    var child := incoming[k];
    PartReady(kinds, pg, p, at, fragment, k);
    MovedIs(part, p, child, ref, fragment);
    NextPart(kinds, pg, p, at, fragment, k);
    PartKids(kinds, pg, p, at, fragment, k);
    FirstIsFirst(kinds, pg, p, at, fragment, k);
    assert NoDuplicates(Kids(part.kids, p)) by { PartLists(kinds, pg, p, at, fragment, k); }
    ReferenceStays(ks, at, incoming[..k], child);
  }

  lemma NextPart(kinds: Kinds, pg: Page, p: Node, at: nat, fragment: Node, k: nat)
    requires p != fragment && at <= |Kids(pg.kids, p)| && k < |Kids(pg.kids, fragment)|
    ensures var part, incoming, ks := Part(kinds, pg, p, at, fragment, k), Kids(pg.kids, fragment), Kids(pg.kids, p);
            var child := incoming[k];
            Part(kinds, pg, p, at, fragment, k + 1) ==
              part.(kids := part.kids[fragment := incoming[k + 1..]]
                                     [p := ks[..at] + (incoming[..k] + [child]) + ks[at..]],
                    parent := Orphaned(part.parent, [child])[child := p],
                    loadTasks := part.loadTasks + if IsLoadable(kinds, child) then [child] else [])
  {
    var incoming, ks := Kids(pg.kids, fragment), Kids(pg.kids, p);
    var child := incoming[k];
    assert incoming[..k + 1] == incoming[..k] + [child];
    assert incoming[..k + 1][..k] == incoming[..k];
    AdoptedOneMore(pg.parent, incoming[..k], child, p);
    PutTwice(pg.kids, fragment, incoming[k..], incoming[k + 1..], p, ks[..at] + incoming[..k] + ks[at..],
             ks[..at] + (incoming[..k] + [child]) + ks[at..]);
    LoadableOneMore(kinds, pg.loadTasks, incoming[..k], child);
  }

  lemma LoadableOneMore(kinds: Kinds, tasks: seq<Node>, ns: seq<Node>, c: Node)
    ensures tasks + Loadable(kinds, ns + [c]) == tasks + Loadable(kinds, ns) + if IsLoadable(kinds, c) then [c] else []
  {
    assert (ns + [c])[..|ns|] == ns;
  }

  // ---- Removing one child after the other ----

  lemma InsertedKids(kinds: Kinds, pg: Page, p: Node, at: nat, fragment: Node)
    requires p != fragment && at <= |Kids(pg.kids, p)|
    ensures var after, ks := Inserted(kinds, pg, p, at, fragment), Kids(pg.kids, p);
            && Kids(after.kids, fragment) == []
            && Kids(after.kids, p) == ks[..at] + Kids(pg.kids, fragment) + ks[at..]
            && forall n :: n != p && n != fragment ==> Kids(after.kids, n) == Kids(pg.kids, n)
  {
  }

  lemma WithoutAt(s: seq<Node>, i: nat)
    requires NoDuplicates(s) && i < |s|
    ensures Without(s, s[i]) == s[..i] + s[i + 1..]
    ensures NoDuplicates(s[..i] + s[i + 1..])
    ensures forall c :: c in s[..i] + s[i + 1..] <==> c in s && c != s[i]
  {
    IndexOf(s, i);
    var t := s[..i] + s[i + 1..];
    assert forall j :: 0 <= j < |t| ==> t[j] == s[if j < i then j else j + 1];
    forall c | c in s && c != s[i] ensures c in t {
      var j :| 0 <= j < |s| && s[j] == c;
      assert t[if j < i then j else j - 1] == c;
    }
  }

  lemma DetachedValid(pg: Page, c: Node)
    requires Valid(pg) && c in pg.parent && c in Kids(pg.kids, pg.parent[c])
    ensures Valid(Detached(pg, c))
  {
    var after, p := Detached(pg, c), pg.parent[c];
    assert NoDuplicates(Kids(pg.kids, p));
    WithoutAt(Kids(pg.kids, p), Index(Kids(pg.kids, p), c));
    forall q ensures NoDuplicates(Kids(after.kids, q)) {
      assert NoDuplicates(Kids(pg.kids, q));
    }
    forall q, x ensures x in Kids(after.kids, q) <==> x in after.parent && after.parent[x] == q {
      assert x in Kids(pg.kids, q) <==> x in pg.parent && pg.parent[x] == q;
    }
  }

  lemma {:induction false} CleanFrame(kinds: Kinds, kids: map<Node, seq<Node>>, kids': map<Node, seq<Node>>,
                                      rank: Node -> nat, n: Node)
    requires Ranked(kids, rank) && Ranked(kids', rank)
    requires forall m :: rank(m) <= rank(n) ==> Kids(kids', m) == Kids(kids, m)
    ensures Clean(kinds, kids', rank, n) == Clean(kinds, kids, rank, n)
    decreases rank(n), 1, 0
  {
    CleanKidsFrame(kinds, kids, kids', rank, n, |Kids(kids, n)|);
  }

  lemma {:induction false} CleanKidsFrame(kinds: Kinds, kids: map<Node, seq<Node>>, kids': map<Node, seq<Node>>,
                                          rank: Node -> nat, n: Node, k: nat)
    requires Ranked(kids, rank) && Ranked(kids', rank) && k <= |Kids(kids, n)|
    requires forall m :: rank(m) <= rank(n) ==> Kids(kids', m) == Kids(kids, m)
    ensures CleanKids(kinds, kids', rank, n, k) == CleanKids(kinds, kids, rank, n, k)
    decreases rank(n), 0, k
  {
    if k > 0 {
      CleanKidsFrame(kinds, kids, kids', rank, n, k - 1);
      CleanFrame(kinds, kids, kids', rank, Kids(kids, n)[k - 1]);
    }
  }

  /** The page when `j` of the old children behind the first have been cleaned up and removed. */
  ghost function Emptied(kinds: Kinds, between: Page, rank: Node -> nat, target: Node, incoming: seq<Node>,
                         olds: seq<Node>, j: nat): Page
    requires Ranked(between.kids, rank) && j < |olds|
  {
    between.(kids := Put(between.kids, target, incoming + olds[..1] + olds[1 + j..]),
             parent := Orphaned(between.parent, olds[1..1 + j]),
             cleaned := between.cleaned + CleanAll(kinds, between.kids, rank, olds[1..1 + j]))
  }

  lemma EmptiedOfNone(kinds: Kinds, between: Page, rank: Node -> nat, target: Node, incoming: seq<Node>,
                      olds: seq<Node>)
    requires Ranked(between.kids, rank) && olds != [] && Kids(between.kids, target) == incoming + olds
    ensures Emptied(kinds, between, rank, target, incoming, olds, 0) == between
  {
    assert incoming + olds[..1] + olds[1..] == incoming + olds;
    assert olds[1..1] == [] && Orphaned(between.parent, []) == between.parent;
  }

  ghost predicate Emptying(between: Page, rank: Node -> nat, target: Node, incoming: seq<Node>, olds: seq<Node>) {
    Valid(between) && Ranked(between.kids, rank) && Kids(between.kids, target) == incoming + olds && olds != []
  }

  lemma EmptiedKids(kinds: Kinds, between: Page, rank: Node -> nat, target: Node, incoming: seq<Node>,
                    olds: seq<Node>, j: nat)
    requires Emptying(between, rank, target, incoming, olds) && j < |olds|
    ensures var pg := Emptied(kinds, between, rank, target, incoming, olds, j);
            && Kids(pg.kids, target) == incoming + olds[..1] + olds[1 + j..]
            && (forall n :: n != target ==> Kids(pg.kids, n) == Kids(between.kids, n))
            && Ranked(pg.kids, rank)
  {
    var pg := Emptied(kinds, between, rank, target, incoming, olds, j);
    forall p, c | p in pg.kids && c in pg.kids[p] ensures rank(c) < rank(p) {
      if p == target {
        assert c in incoming + olds;
        assert c in Kids(between.kids, target) && target in between.kids;
      } else {
        assert pg.kids[p] == Kids(between.kids, p);
      }
    }
  }

  lemma EmptiedParent(kinds: Kinds, between: Page, rank: Node -> nat, target: Node, incoming: seq<Node>,
                      olds: seq<Node>, j: nat, i: nat)
    requires Emptying(between, rank, target, incoming, olds) && j < |olds| && (i == 0 || 1 + j <= i < |olds|)
    ensures var pg := Emptied(kinds, between, rank, target, incoming, olds, j);
            olds[i] in pg.parent && pg.parent[olds[i]] == target
  {
    assert (incoming + olds)[|incoming| + i] == olds[i];
    assert olds[i] in Kids(between.kids, target);
    assert NoDuplicates(Kids(between.kids, target));
    forall x | 1 <= x < 1 + j ensures olds[x] != olds[i] {
      assert (incoming + olds)[|incoming| + x] == olds[x];
    }
  }

  lemma EmptiedNext(kinds: Kinds, between: Page, rank: Node -> nat, target: Node, incoming: seq<Node>,
                    olds: seq<Node>, j: nat)
    requires Emptying(between, rank, target, incoming, olds) && j < |olds|
    requires Valid(Emptied(kinds, between, rank, target, incoming, olds, j))
    ensures var pg := Emptied(kinds, between, rank, target, incoming, olds, j);
            NextIn(pg.kids, pg.parent, olds[0]) == if j + 1 < |olds| then Some(olds[j + 1]) else None
  {
    var pg := Emptied(kinds, between, rank, target, incoming, olds, j);
    EmptiedKids(kinds, between, rank, target, incoming, olds, j);
    EmptiedParent(kinds, between, rank, target, incoming, olds, j, 0);
    var ks := Kids(pg.kids, target);
    assert NoDuplicates(ks) && ks[|incoming|] == olds[0];
    IndexOf(ks, |incoming|);
  }

  lemma OrphanedMore(parent: map<Node, Node>, a: seq<Node>, b: seq<Node>)
    ensures Orphaned(Orphaned(parent, a), b) == Orphaned(parent, a + b) == Orphaned(parent, b + a)
  {
  }

  lemma CleanAllMore(s: seq<Node>, kinds: Kinds, kids: map<Node, seq<Node>>, rank: Node -> nat, ns: seq<Node>, n: Node)
    requires Ranked(kids, rank)
    ensures s + CleanAll(kinds, kids, rank, ns + [n])
              == s + CleanAll(kinds, kids, rank, ns) + Clean(kinds, kids, rank, n)
  {
    assert (ns + [n])[..|ns|] == ns;
  }

  /** Cleaning up one of the children that are left cleans up the subtree it had to begin with. */
  lemma EmptiedClean(kinds: Kinds, between: Page, rank: Node -> nat, target: Node, incoming: seq<Node>,
                     olds: seq<Node>, j: nat, i: nat)
    requires Emptying(between, rank, target, incoming, olds) && j < |olds| && i < |olds|
    ensures var pg := Emptied(kinds, between, rank, target, incoming, olds, j);
            Ranked(pg.kids, rank) && Clean(kinds, pg.kids, rank, olds[i]) == Clean(kinds, between.kids, rank, olds[i])
  {
    EmptiedKids(kinds, between, rank, target, incoming, olds, j);
    assert (incoming + olds)[|incoming| + i] == olds[i];
    assert olds[i] in Kids(between.kids, target) && target in between.kids;
    CleanFrame(kinds, between.kids, Emptied(kinds, between, rank, target, incoming, olds, j).kids, rank, olds[i]);
  }

  lemma EmptiedStep(kinds: Kinds, between: Page, rank: Node -> nat, target: Node, incoming: seq<Node>,
                    olds: seq<Node>, j: nat)
    requires Emptying(between, rank, target, incoming, olds) && j + 1 < |olds|
    requires Valid(Emptied(kinds, between, rank, target, incoming, olds, j))
    ensures var pg, x := Emptied(kinds, between, rank, target, incoming, olds, j), olds[j + 1];
            && Ranked(pg.kids, rank) && x in pg.parent && x in Kids(pg.kids, pg.parent[x])
            && Detached(pg.(cleaned := pg.cleaned + Clean(kinds, pg.kids, rank, x)), x)
               == Emptied(kinds, between, rank, target, incoming, olds, j + 1)
  {
    var pg, x := Emptied(kinds, between, rank, target, incoming, olds, j), olds[j + 1];
    EmptiedKids(kinds, between, rank, target, incoming, olds, j);
    EmptiedParent(kinds, between, rank, target, incoming, olds, j, j + 1);
    EmptiedClean(kinds, between, rank, target, incoming, olds, j, j + 1);
    assert NoDuplicates(Kids(pg.kids, target));
    OneRemoved(between.kids, target, incoming, olds, j);
    assert olds[1..2 + j] == olds[1..1 + j] + [x];
    OrphanedMore(between.parent, olds[1..1 + j], [x]);
    CleanAllMore(between.cleaned, kinds, between.kids, rank, olds[1..1 + j], x);
  }

  lemma OneRemoved(kids: map<Node, seq<Node>>, target: Node, incoming: seq<Node>, olds: seq<Node>, j: nat)
    requires j + 1 < |olds| && Kids(kids, target) == incoming + olds
    requires NoDuplicates(incoming + olds[..1] + olds[1 + j..])
    ensures var kids' := Put(kids, target, incoming + olds[..1] + olds[1 + j..]);
            && target in kids' && olds[j + 1] in kids'[target]
            && kids'[target := Without(kids'[target], olds[j + 1])]
                 == Put(kids, target, incoming + olds[..1] + olds[2 + j..])
  {
    var ks, at := incoming + olds[..1] + olds[1 + j..], |incoming| + 1;
    assert ks[at] == olds[j + 1];
    WithoutAt(ks, at);
    assert ks[..at] + ks[at + 1..] == incoming + olds[..1] + olds[2 + j..];
    assert |incoming + olds[..1] + olds[2 + j..]| < |incoming + olds|;
  }

  lemma LastRemoved(kids: map<Node, seq<Node>>, kids': map<Node, seq<Node>>, target: Node, incoming: seq<Node>,
                    olds: seq<Node>)
    requires olds != [] && Kids(kids, target) == incoming + olds && NoDuplicates(incoming + olds[..1])
    requires kids' == Put(kids, target, incoming + olds[..1])
    ensures target in kids' && olds[0] in kids'[target]
    ensures kids'[target := Without(kids'[target], olds[0])] == Put(kids, target, incoming)
  {
    var ks, at := incoming + olds[..1], |incoming|;
    assert ks[at] == olds[0];
    WithoutAt(ks, at);
    assert ks[..at] + ks[at + 1..] == incoming;
    assert |incoming| < |incoming + olds|;
  }

  lemma EmptiedLast(kinds: Kinds, between: Page, rank: Node -> nat, target: Node, incoming: seq<Node>,
                    olds: seq<Node>, j: nat)
    requires Emptying(between, rank, target, incoming, olds) && j + 1 == |olds|
    requires Valid(Emptied(kinds, between, rank, target, incoming, olds, j))
    ensures var pg, x := Emptied(kinds, between, rank, target, incoming, olds, j), olds[0];
            && Ranked(pg.kids, rank) && x in pg.parent && x in Kids(pg.kids, pg.parent[x])
            && Detached(pg.(cleaned := pg.cleaned + Clean(kinds, pg.kids, rank, x)), x)
               == EmptiedAll(kinds, between, rank, target, incoming, olds)
  {
    var pg, x := Emptied(kinds, between, rank, target, incoming, olds, j), olds[0];
    EmptiedKids(kinds, between, rank, target, incoming, olds, j);
    EmptiedParent(kinds, between, rank, target, incoming, olds, j, 0);
    EmptiedClean(kinds, between, rank, target, incoming, olds, j, 0);
    assert olds[1..1 + j] == olds[1..] && olds[..1] == [x] && olds[1 + j..] == [];
    assert Kids(pg.kids, target) == incoming + olds[..1];
    assert NoDuplicates(Kids(pg.kids, target));
    LastRemoved(between.kids, pg.kids, target, incoming, olds);
    OrphanedMore(between.parent, olds[1..], [x]);
    assert [x] + olds[1..] == olds;
    CleanAllMore(between.cleaned, kinds, between.kids, rank, olds[1..], x);
  }

  // ---- Clean-up reaches every element of a removed subtree once ----

  lemma {:induction false} CleanKidsMember(kinds: Kinds, kids: map<Node, seq<Node>>, rank: Node -> nat, n: Node,
                                           k: nat, x: Node)
    requires Ranked(kids, rank) && k <= |Kids(kids, n)|
    ensures x in CleanKids(kinds, kids, rank, n, k) <==>
              exists i :: 0 <= i < k && kinds(Kids(kids, n)[i]).Element?
                && x in Clean(kinds, kids, rank, Kids(kids, n)[i])
  {
    if k > 0 {
      CleanKidsMember(kinds, kids, rank, n, k - 1, x);
    }
  }

  lemma CleanMember(kinds: Kinds, kids: map<Node, seq<Node>>, rank: Node -> nat, n: Node, x: Node)
    requires Ranked(kids, rank)
    ensures x in Clean(kinds, kids, rank, n) <==>
              x == n || exists c :: c in Kids(kids, n) && kinds(c).Element? && x in Clean(kinds, kids, rank, c)
  {
    var ks := Kids(kids, n);
    CleanKidsMember(kinds, kids, rank, n, |ks|, x);
    if c :| c in ks && kinds(c).Element? && x in Clean(kinds, kids, rank, c) {
      var i :| 0 <= i < |ks| && ks[i] == c;
    }
  }

  /** Position `i` of the path is an element child of the node before it. */
  predicate StepsDown(kinds: Kinds, kids: map<Node, seq<Node>>, path: seq<Node>, i: nat)
    requires 0 < i < |path|
  {
    path[i] in Kids(kids, path[i - 1]) && kinds(path[i]).Element?
  }

  /** A path from `n` down to `x`, from each node to one of its element children. */
  predicate IsPath(kinds: Kinds, kids: map<Node, seq<Node>>, path: seq<Node>, n: Node, x: Node) {
    && path != [] && path[0] == n && path[|path| - 1] == x
    && forall i :: 0 < i < |path| ==> StepsDown(kinds, kids, path, i)
  }

  lemma PathFrom(kinds: Kinds, kids: map<Node, seq<Node>>, path: seq<Node>, n: Node, c: Node, x: Node)
    requires IsPath(kinds, kids, path, c, x) && c in Kids(kids, n) && kinds(c).Element?
    ensures IsPath(kinds, kids, [n] + path, n, x)
  {
    var more := [n] + path;
    forall i | 0 < i < |more| ensures StepsDown(kinds, kids, more, i) {
      if i > 1 {
        assert StepsDown(kinds, kids, path, i - 1);
      }
    }
  }

  lemma PathBelow(kinds: Kinds, kids: map<Node, seq<Node>>, path: seq<Node>, n: Node, x: Node)
    requires IsPath(kinds, kids, path, n, x) && |path| > 1
    ensures IsPath(kinds, kids, path[1..], path[1], x) && path[1] in Kids(kids, n) && kinds(path[1]).Element?
  {
    assert StepsDown(kinds, kids, path, 1);
    forall i | 0 < i < |path[1..]| ensures StepsDown(kinds, kids, path[1..], i) {
      assert StepsDown(kinds, kids, path, i + 1);
    }
  }

  lemma {:induction false} CleanedHasPath(kinds: Kinds, kids: map<Node, seq<Node>>, rank: Node -> nat, n: Node, x: Node)
    returns (path: seq<Node>)
    requires Ranked(kids, rank) && x in Clean(kinds, kids, rank, n)
    ensures IsPath(kinds, kids, path, n, x)
    decreases rank(n)
  {
    if x == n {
      path := [n];
    } else {
      CleanMember(kinds, kids, rank, n, x);
      var c :| c in Kids(kids, n) && kinds(c).Element? && x in Clean(kinds, kids, rank, c);
      path := CleanedHasPath(kinds, kids, rank, c, x);
      PathFrom(kinds, kids, path, n, c, x);
      path := [n] + path;
    }
  }

  lemma {:induction false} PathIsCleaned(kinds: Kinds, kids: map<Node, seq<Node>>, rank: Node -> nat, path: seq<Node>,
                                         n: Node, x: Node)
    requires Ranked(kids, rank) && IsPath(kinds, kids, path, n, x)
    ensures x in Clean(kinds, kids, rank, n)
    decreases |path|
  {
    if |path| > 1 {
      PathBelow(kinds, kids, path, n, x);
      PathIsCleaned(kinds, kids, rank, path[1..], path[1], x);
      CleanMember(kinds, kids, rank, n, x);
    }
  }

  /** Exactly what a path of element children leads to, the node itself included, is cleaned up. */
  lemma CleanedExactly(kinds: Kinds, kids: map<Node, seq<Node>>, rank: Node -> nat, n: Node, x: Node)
    requires Ranked(kids, rank)
    ensures x in Clean(kinds, kids, rank, n) <==> exists path :: IsPath(kinds, kids, path, n, x)
  {
    if x in Clean(kinds, kids, rank, n) {
      var path := CleanedHasPath(kinds, kids, rank, n, x);
    }
    if path :| IsPath(kinds, kids, path, n, x) {
      PathIsCleaned(kinds, kids, rank, path, n, x);
    }
  }

  lemma {:induction false} CleanRanks(kinds: Kinds, kids: map<Node, seq<Node>>, rank: Node -> nat, n: Node, x: Node)
    requires Ranked(kids, rank) && x in Clean(kinds, kids, rank, n)
    ensures rank(x) <= rank(n)
    decreases rank(n)
  {
    CleanMember(kinds, kids, rank, n, x);
    if x != n {
      var c :| c in Kids(kids, n) && kinds(c).Element? && x in Clean(kinds, kids, rank, c);
      CleanRanks(kinds, kids, rank, c, x);
    }
  }

  lemma {:induction false} CleanHoldsParent(kinds: Kinds, pg: Page, rank: Node -> nat, n: Node, x: Node)
    requires Valid(pg) && Ranked(pg.kids, rank) && x in Clean(kinds, pg.kids, rank, n) && x != n
    ensures x in pg.parent && pg.parent[x] in Clean(kinds, pg.kids, rank, n)
    decreases rank(n)
  {
    CleanMember(kinds, pg.kids, rank, n, x);
    var c :| c in Kids(pg.kids, n) && kinds(c).Element? && x in Clean(kinds, pg.kids, rank, c);
    assert pg.parent[c] == n;
    if x != c {
      CleanHoldsParent(kinds, pg, rank, c, x);
      CleanMember(kinds, pg.kids, rank, n, pg.parent[x]);
    }
  }

  /** The subtrees of two siblings have no node in common. */
  lemma {:induction false} SiblingsDisjoint(kinds: Kinds, pg: Page, rank: Node -> nat, n: Node, c: Node, d: Node,
                                            x: Node)
    requires Valid(pg) && Ranked(pg.kids, rank) && c in Kids(pg.kids, n) && d in Kids(pg.kids, n) && c != d
    requires x in Clean(kinds, pg.kids, rank, c)
    ensures x !in Clean(kinds, pg.kids, rank, d)
    decreases rank(c) - rank(x)
  {
    CleanRanks(kinds, pg.kids, rank, c, x);
    assert pg.parent[c] == n && pg.parent[d] == n;
    if x in Clean(kinds, pg.kids, rank, d) {
      if x != d {
        CleanHoldsParent(kinds, pg, rank, d, x);
        CleanRanks(kinds, pg.kids, rank, d, pg.parent[x]);
      }
      if x != c {
        CleanHoldsParent(kinds, pg, rank, c, x);
        CleanRanks(kinds, pg.kids, rank, c, pg.parent[x]);
        var y := pg.parent[x];
        assert x in Kids(pg.kids, y);
        SiblingsDisjoint(kinds, pg, rank, n, c, d, y);
      }
      assert false;
    }
  }

  lemma {:induction false} CleanedOnce(kinds: Kinds, pg: Page, rank: Node -> nat, n: Node)
    requires Valid(pg) && Ranked(pg.kids, rank)
    ensures NoDuplicates(Clean(kinds, pg.kids, rank, n))
    decreases rank(n), 1, 0
  {
    var ks := Kids(pg.kids, n);
    KidsCleanedOnce(kinds, pg, rank, n, |ks|);
    if n in CleanKids(kinds, pg.kids, rank, n, |ks|) {
      CleanKidsMember(kinds, pg.kids, rank, n, |ks|, n);
      var i :| 0 <= i < |ks| && kinds(ks[i]).Element? && n in Clean(kinds, pg.kids, rank, ks[i]);
      CleanRanks(kinds, pg.kids, rank, ks[i], n);
    }
  }

  lemma {:induction false} KidsCleanedOnce(kinds: Kinds, pg: Page, rank: Node -> nat, n: Node, k: nat)
    requires Valid(pg) && Ranked(pg.kids, rank) && k <= |Kids(pg.kids, n)|
    ensures NoDuplicates(CleanKids(kinds, pg.kids, rank, n, k))
    decreases rank(n), 0, k
  {
    if k > 0 {
      var ks, c := Kids(pg.kids, n), Kids(pg.kids, n)[k - 1];
      KidsCleanedOnce(kinds, pg, rank, n, k - 1);
      assert c in Kids(pg.kids, n);
      assert NoDuplicates(Kids(pg.kids, n));
      if kinds(c).Element? {
        CleanedOnce(kinds, pg, rank, c);
        forall x | x in CleanKids(kinds, pg.kids, rank, n, k - 1) ensures x !in Clean(kinds, pg.kids, rank, c) {
          CleanKidsMember(kinds, pg.kids, rank, n, k - 1, x);
          var i :| 0 <= i < k - 1 && kinds(ks[i]).Element? && x in Clean(kinds, pg.kids, rank, ks[i]);
          SiblingsDisjoint(kinds, pg, rank, n, ks[i], c, x);
        }
        DistinctAppend(CleanKids(kinds, pg.kids, rank, n, k - 1), Clean(kinds, pg.kids, rank, c));
      }
    }
  }

  lemma DistinctAppend(a: seq<Node>, b: seq<Node>)
    requires NoDuplicates(a) && NoDuplicates(b) && forall x :: x in a ==> x !in b
    ensures NoDuplicates(a + b)
  {
    assert forall i :: 0 <= i < |a| ==> a[i] in a;
    assert forall i :: 0 <= i < |b| ==> b[i] in b;
  }

  /** An outer swap takes the target out of the page and leaves every other node in it. */
  lemma OuterLosesOnlyTarget(kinds: Kinds, pg: Page, rank: Node -> nat, target: Node, fragment: Node, x: Node)
    requires Valid(pg) && OuterRanked(kinds, pg, rank, target, fragment)
    requires !IsBody(kinds, target) && ParentElt(kinds, pg, target).Some?
    ensures var after := OuterSwapped(kinds, pg, rank, target, fragment);
            && (x in after.parent <==> x in pg.parent && x != target)
            && (x in after.parent ==>
                  after.parent[x] == if pg.parent[x] == fragment then pg.parent[target] else pg.parent[x])
  {
    var p := pg.parent[target];
    assert x in Kids(pg.kids, fragment) <==> x in pg.parent && pg.parent[x] == fragment;
  }

  /** An inner swap takes out the old children of the target and leaves every other node. */
  lemma InnerLosesOnlyChildren(kinds: Kinds, pg: Page, rank: Node -> nat, target: Node, fragment: Node, x: Node)
    requires Valid(pg) && target != fragment && Ranked(Inserted(kinds, pg, target, 0, fragment).kids, rank)
    ensures var after := InnerSwapped(kinds, pg, rank, target, fragment);
            && (x in after.parent <==> x in pg.parent && pg.parent[x] != target)
            && (x in after.parent ==> after.parent[x] == if pg.parent[x] == fragment then target else pg.parent[x])
            && Kids(after.kids, target) == Kids(pg.kids, fragment) && Kids(after.kids, fragment) == []
  {
    InsertedKids(kinds, pg, target, 0, fragment);
    assert x in Kids(pg.kids, fragment) <==> x in pg.parent && pg.parent[x] == fragment;
    assert x in Kids(pg.kids, target) <==> x in pg.parent && pg.parent[x] == target;
  }

  // ---- Which dispatches end ----

  /** A style that is known is settled at the first try, another one as the default style is. */
  lemma TwoTries(style: string, handles: string -> bool, defaultStyle: string)
    ensures IsKnown(style, handles) ==>
              DispatchRun(Trying(style), handles, defaultStyle, 2) == DispatchStep(Trying(style), handles, defaultStyle)
    ensures !IsKnown(style, handles) && IsKnown(defaultStyle, handles) ==>
              DispatchRun(Trying(style), handles, defaultStyle, 2)
                == DispatchRun(Trying(defaultStyle), handles, defaultStyle, 2)
  {
    var d := DispatchStep(Trying(style), handles, defaultStyle);
    var e := DispatchStep(Trying(defaultStyle), handles, defaultStyle);
    assert DispatchRun(Trying(style), handles, defaultStyle, 2) == DispatchRun(d, handles, defaultStyle, 1);
    assert DispatchRun(Trying(defaultStyle), handles, defaultStyle, 2) == DispatchRun(e, handles, defaultStyle, 1);
    assert DispatchRun(d, handles, defaultStyle, 1) == DispatchStep(d, handles, defaultStyle);
    assert DispatchRun(e, handles, defaultStyle, 1) == DispatchStep(e, handles, defaultStyle);
  }

  lemma {:induction false} UnknownForEver(style: string, handles: string -> bool, defaultStyle: string, k: nat)
    requires !IsKnown(style, handles) && !IsKnown(defaultStyle, handles)
    ensures DispatchRun(Trying(style), handles, defaultStyle, k).Trying?
    decreases k
  {
    if k > 0 {
      UnknownForEver(defaultStyle, handles, defaultStyle, k - 1);
    }
  }

  /** The dispatch comes to an end exactly when the style or the default style is known. */
  lemma DispatchEnds(style: string, handles: string -> bool, defaultStyle: string)
    ensures (exists k :: !DispatchRun(Trying(style), handles, defaultStyle, k).Trying?) <==>
              IsKnown(style, handles) || IsKnown(defaultStyle, handles)
  {
    if IsKnown(style, handles) {
      assert !DispatchRun(Trying(style), handles, defaultStyle, 1).Trying?;
    } else if IsKnown(defaultStyle, handles) {
      assert DispatchRun(Trying(style), handles, defaultStyle, 1) == Trying(defaultStyle);
      assert !DispatchRun(Trying(defaultStyle), handles, defaultStyle, 1).Trying?;
      assert !DispatchRun(Trying(style), handles, defaultStyle, 2).Trying?;
    } else {
      forall k ensures DispatchRun(Trying(style), handles, defaultStyle, k).Trying? {
        UnknownForEver(style, handles, defaultStyle, k);
      }
    }
  }

  /** The default configuration: the default style is built in, so every dispatch ends after at most two tries. */
  lemma DispatchEndsByDefault(style: string, handles: string -> bool, defaultStyle: string)
    requires IsFixed(defaultStyle) || defaultStyle == "innerHTML"
    ensures !DispatchRun(Trying(style), handles, defaultStyle, 2).Trying?
  {
    var d := DispatchStep(Trying(style), handles, defaultStyle);
    assert DispatchRun(Trying(style), handles, defaultStyle, 2) == DispatchRun(d, handles, defaultStyle, 1);
    assert DispatchRun(d, handles, defaultStyle, 1) == DispatchStep(d, handles, defaultStyle);
  }
}
