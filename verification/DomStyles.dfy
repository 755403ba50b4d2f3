/**
  What each swap style does to the page (web/src/htmx/swap-runtime.ts), in terms of child lists: where the
  fragment goes, what leaves, what is cleaned up, and what is loaded and settled.
 */
module DomStyles {
  import opened Wrappers
  import opened DomSwap

  /** An element or a shadow root is above the target. */
  predicate HasParent(kinds: Kinds, pg: Page, target: Node) {
    target in pg.parent && (kinds(pg.parent[target]).Element? || kinds(pg.parent[target]).ShadowRoot?)
  }

  /** Inner swaps, and outer ones of the body. */
  predicate Refills(kinds: Kinds, style: string, target: Node) {
    style == "innerHTML" || (style == "outerHTML" && kinds(target) == Element("BODY"))
  }

  predicate Inserts(kinds: Kinds, pg: Page, style: string, target: Node) {
    || Refills(kinds, style, target) || style == "afterbegin" || style == "beforeend"
    || ((style == "outerHTML" || style == "beforebegin" || style == "afterend") && HasParent(kinds, pg, target))
  }

  // ---- Child lists ----

  lemma Ends(olds: seq<Node>, added: seq<Node>)
    ensures olds[..0] + added + olds[0..] == added + olds
    ensures olds[..|olds|] + added + olds[|olds|..] == olds + added
  {
  }

  /** The styles that work inside the target. */
  lemma InsideTarget(kinds: Kinds, pg: Page, rank: Node -> nat, style: string, target: Node, fragment: Node)
    requires Valid(pg) && StyleReady(kinds, pg, rank, style, target, fragment)
    ensures var after := StyleSwapped(kinds, pg, rank, style, target, fragment);
            var olds, added, now := Kids(pg.kids, target), Kids(pg.kids, fragment), Kids(after.kids, target);
            && (style == "none" ==> after == pg)
            && (style == "afterbegin" ==> now == added + olds)
            && (style == "beforeend" ==> now == olds + added)
            && (Refills(kinds, style, target) ==> now == added)
  {
    Ends(Kids(pg.kids, target), Kids(pg.kids, fragment));
    if style == "afterbegin" {
      InsertedKids(kinds, pg, target, 0, fragment);
    } else if style == "beforeend" {
      InsertedKids(kinds, pg, target, |Kids(pg.kids, target)|, fragment);
    }
  }

  lemma InsertedEmpties(kinds: Kinds, pg: Page, p: Node, at: nat, fragment: Node)
    requires p != fragment && at <= |Kids(pg.kids, p)|
    ensures Kids(Inserted(kinds, pg, p, at, fragment).kids, fragment) == []
  {
    InsertedKids(kinds, pg, p, at, fragment);
  }

  /** Whatever is inserted is no longer in the fragment. */
  lemma FragmentIsEmpty(kinds: Kinds, pg: Page, rank: Node -> nat, style: string, target: Node, fragment: Node)
    requires Valid(pg) && StyleReady(kinds, pg, rank, style, target, fragment) && Inserts(kinds, pg, style, target)
    ensures Kids(StyleSwapped(kinds, pg, rank, style, target, fragment).kids, fragment) == []
  {
    if Refills(kinds, style, target) || style == "afterbegin" {
      InsertedEmpties(kinds, pg, target, 0, fragment);
    } else if style == "beforeend" {
      InsertedEmpties(kinds, pg, target, |Kids(pg.kids, target)|, fragment);
    } else {
      var p := pg.parent[target];
      assert target in Kids(pg.kids, p);
      var at := Index(Kids(pg.kids, p), target);
      InsertedEmpties(kinds, pg, p, if style == "afterend" then at + 1 else at, fragment);
    }
  }

  lemma SplitAt(s: seq<Node>, pre: seq<Node>, x: Node, post: seq<Node>)
    requires NoDuplicates(s) && s == pre + [x] + post
    ensures x in s && Index(s, x) == |pre|
    ensures s[..|pre|] == pre && s[|pre|..] == [x] + post && s[..|pre| + 1] == pre + [x] && s[|pre| + 1..] == post
  {
    assert s[|pre|] == x;
    IndexOf(s, |pre|);
  }

  /** The styles that work beside the target, among the children of its parent. */
  lemma BesideTarget(kinds: Kinds, pg: Page, rank: Node -> nat, style: string, target: Node, fragment: Node,
                     p: Node, pre: seq<Node>, post: seq<Node>)
    requires Valid(pg) && StyleReady(kinds, pg, rank, style, target, fragment)
    requires HasParent(kinds, pg, target) && Kids(pg.kids, p) == pre + [target] + post
    ensures var after := StyleSwapped(kinds, pg, rank, style, target, fragment);
            var added, now := Kids(pg.kids, fragment), Kids(after.kids, p);
            && (style == "beforebegin" ==> now == pre + added + [target] + post)
            && (style == "afterend" ==> now == pre + [target] + added + post)
            && (style == "outerHTML" && kinds(target) != Element("BODY") ==> now == pre + added + post)
            && (style == "delete" ==> now == pre + post)
  {
    var ks, added := Kids(pg.kids, p), Kids(pg.kids, fragment);
    assert NoDuplicates(ks);
    SplitAt(ks, pre, target, post);
    assert pg.parent[target] == p;
    if style == "beforebegin" {
      InsertedKids(kinds, pg, p, |pre|, fragment);
      assert pre + added + ([target] + post) == pre + added + [target] + post;
    } else if style == "afterend" {
      InsertedKids(kinds, pg, p, |pre| + 1, fragment);
    }
  }

  /** Without an element above it nothing is put beside the target, and nothing takes its place. */
  lemma NothingBeside(kinds: Kinds, pg: Page, rank: Node -> nat, style: string, target: Node, fragment: Node)
    requires Valid(pg) && StyleReady(kinds, pg, rank, style, target, fragment) && !HasParent(kinds, pg, target)
    ensures var after := StyleSwapped(kinds, pg, rank, style, target, fragment);
            && (style == "beforebegin" || style == "afterend" ==> after == pg)
            && (style == "outerHTML" && kinds(target) != Element("BODY") ==> after == pg)
            && (style == "delete" ==> after.kids == pg.kids && after.parent == pg.parent)
  {
  }

  /** No other child list changes. */
  lemma ElsewhereSame(kinds: Kinds, pg: Page, rank: Node -> nat, style: string, target: Node, fragment: Node, n: Node)
    requires Valid(pg) && StyleReady(kinds, pg, rank, style, target, fragment)
    requires n != target && n != fragment && (target in pg.parent ==> n != pg.parent[target])
    ensures Kids(StyleSwapped(kinds, pg, rank, style, target, fragment).kids, n) == Kids(pg.kids, n)
  {
    if Refills(kinds, style, target) || style == "afterbegin" {
      InsertedKids(kinds, pg, target, 0, fragment);
    } else if style == "beforeend" {
      InsertedKids(kinds, pg, target, |Kids(pg.kids, target)|, fragment);
    } else if HasParent(kinds, pg, target) && (style == "outerHTML" || style == "beforebegin" || style == "afterend") {
      BesideElsewhere(kinds, pg, rank, style, target, fragment, n);
    }
  }

  lemma BesideElsewhere(kinds: Kinds, pg: Page, rank: Node -> nat, style: string, target: Node, fragment: Node, n: Node)
    requires Valid(pg) && StyleReady(kinds, pg, rank, style, target, fragment) && HasParent(kinds, pg, target)
    requires style == "beforebegin" || style == "afterend" || (style == "outerHTML" && !Refills(kinds, style, target))
    requires n != pg.parent[target] && n != fragment
    ensures Kids(StyleSwapped(kinds, pg, rank, style, target, fragment).kids, n) == Kids(pg.kids, n)
  {
    var p := pg.parent[target];
    assert target in Kids(pg.kids, p);
    var at := Index(Kids(pg.kids, p), target);
    InsertedKids(kinds, pg, p, if style == "afterend" then at + 1 else at, fragment);
  }

  // ---- Clean-up ----

  /** The nodes whose subtrees are cleaned up: the old children, or the target itself. */
  predicate Goes(kinds: Kinds, pg: Page, style: string, target: Node, c: Node) {
    if Refills(kinds, style, target) then c in Kids(pg.kids, target)
    else c == target && (style == "delete" || (style == "outerHTML" && HasParent(kinds, pg, target)))
  }

  ghost predicate HangsBelow(kinds: Kinds, kids: map<Node, seq<Node>>, c: Node, x: Node) {
    exists path :: IsPath(kinds, kids, path, c, x)
  }

  /** The same lists but for that of `p`, which has lost members. */
  ghost predicate LosesAt(kids: map<Node, seq<Node>>, kids': map<Node, seq<Node>>, p: Node) {
    && (forall n :: n != p ==> Kids(kids', n) == Kids(kids, n))
    && (forall c :: c in Kids(kids', p) ==> c in Kids(kids, p))
  }

  lemma CleanedBelow(kinds: Kinds, kids: map<Node, seq<Node>>, kids': map<Node, seq<Node>>, rank: Node -> nat,
                     p: Node, c: Node, x: Node)
    requires Ranked(kids, rank) && LosesAt(kids, kids', p) && c in Kids(kids, p)
    ensures x in Clean(kinds, kids, rank, c) <==> HangsBelow(kinds, kids', c, x)
  {
    forall q, d | q in kids' && d in kids'[q] ensures rank(d) < rank(q) {
      assert d in Kids(kids', q);
      assert d in Kids(kids, q);
    }
    forall m | rank(m) <= rank(c) ensures Kids(kids', m) == Kids(kids, m) {
      assert rank(c) < rank(p);
    }
    CleanFrame(kinds, kids, kids', rank, c);
    CleanedExactly(kinds, kids', rank, c, x);
  }

  lemma {:induction false} CleanAllMember(kinds: Kinds, kids: map<Node, seq<Node>>, rank: Node -> nat, ns: seq<Node>,
                                          x: Node)
    requires Ranked(kids, rank)
    ensures x in CleanAll(kinds, kids, rank, ns) <==> exists c :: c in ns && x in Clean(kinds, kids, rank, c)
  {
    if ns != [] {
      var m := |ns| - 1;
      CleanAllMember(kinds, kids, rank, ns[..m], x);
      assert forall c :: c in ns <==> c in ns[..m] || c == ns[m] by {
        assert ns == ns[..m] + [ns[m]];
      }
      if x in Clean(kinds, kids, rank, ns[m]) {
        assert ns[m] in ns;
      }
      if c :| c in ns[..m] && x in Clean(kinds, kids, rank, c) {
        assert c in ns;
      }
    }
  }

  lemma {:induction false} CleanAllOnce(kinds: Kinds, pg: Page, rank: Node -> nat, n: Node, ns: seq<Node>)
    requires Valid(pg) && Ranked(pg.kids, rank) && NoDuplicates(ns) && forall c :: c in ns ==> c in Kids(pg.kids, n)
    ensures NoDuplicates(CleanAll(kinds, pg.kids, rank, ns))
  {
    if ns != [] {
      var m, last := |ns| - 1, ns[|ns| - 1];
      CleanAllOnce(kinds, pg, rank, n, ns[..m]);
      CleanedOnce(kinds, pg, rank, last);
      forall x | x in CleanAll(kinds, pg.kids, rank, ns[..m]) ensures x !in Clean(kinds, pg.kids, rank, last) {
        CleanAllMember(kinds, pg.kids, rank, ns[..m], x);
        var c :| c in ns[..m] && x in Clean(kinds, pg.kids, rank, c);
        assert last in ns && c in ns && c != last;
        SiblingsDisjoint(kinds, pg, rank, n, c, last, x);
      }
      DistinctAppend(CleanAll(kinds, pg.kids, rank, ns[..m]), Clean(kinds, pg.kids, rank, last));
    }
  }

  lemma InsertedValid(kinds: Kinds, pg: Page, p: Node, at: nat, fragment: Node)
    requires Valid(pg) && p != fragment && at <= |Kids(pg.kids, p)|
    ensures Valid(Inserted(kinds, pg, p, at, fragment))
  {
    PartLeft(kinds, pg, p, at, fragment, |Kids(pg.kids, fragment)|);
    PartDone(kinds, pg, p, at, fragment, |Kids(pg.kids, fragment)|);
  }

  lemma Rotated(olds: seq<Node>)
    requires NoDuplicates(olds) && olds != []
    ensures var r := olds[1..] + olds[..1]; NoDuplicates(r) && forall c :: c in r <==> c in olds
  {
    var r := olds[1..] + olds[..1];
    assert forall i :: 0 <= i < |r| ==> r[i] == olds[if i < |olds| - 1 then i + 1 else 0];
    forall c | c in olds ensures c in r {
      var i :| 0 <= i < |olds| && olds[i] == c;
      assert r[if i == 0 then |olds| - 1 else i - 1] == c;
    }
  }

  lemma RefillCleans(kinds: Kinds, pg: Page, rank: Node -> nat, target: Node, fragment: Node, x: Node)
    requires Valid(pg) && target != fragment && Ranked(Inserted(kinds, pg, target, 0, fragment).kids, rank)
    ensures var after := InnerSwapped(kinds, pg, rank, target, fragment);
            && pg.cleaned <= after.cleaned && NoDuplicates(after.cleaned[|pg.cleaned|..])
            && (x in after.cleaned[|pg.cleaned|..] <==>
                  exists c :: c in Kids(pg.kids, target) && HangsBelow(kinds, after.kids, c, x))
  {
    var between, olds := Inserted(kinds, pg, target, 0, fragment), Kids(pg.kids, target);
    var after := InnerSwapped(kinds, pg, rank, target, fragment);
    InsertedKids(kinds, pg, target, 0, fragment);
    InsertedValid(kinds, pg, target, 0, fragment);
    RefillLoses(between.kids, after.kids, target, Kids(pg.kids, fragment), olds);
    if olds != [] {
      var r := olds[1..] + olds[..1];
      assert NoDuplicates(olds);
      Rotated(olds);
      CleanAllMember(kinds, between.kids, rank, r, x);
      CleanAllOnce(kinds, between, rank, target, r);
      Behind(pg.cleaned, CleanAll(kinds, between.kids, rank, r));
      forall c | c in olds
        ensures x in Clean(kinds, between.kids, rank, c) <==> HangsBelow(kinds, after.kids, c, x)
      {
        CleanedBelow(kinds, between.kids, after.kids, rank, target, c, x);
      }
    }
  }

  lemma RefillLoses(kids: map<Node, seq<Node>>, kids': map<Node, seq<Node>>, target: Node, added: seq<Node>,
                    olds: seq<Node>)
    requires Kids(kids, target) == [] + added + olds && kids' == Put(kids, target, added)
    ensures LosesAt(kids, kids', target) && forall c :: c in olds ==> c in Kids(kids, target)
  {
  }

  lemma OuterCleans(kinds: Kinds, pg: Page, rank: Node -> nat, target: Node, fragment: Node, x: Node)
    requires Valid(pg) && OuterRanked(kinds, pg, rank, target, fragment)
    requires kinds(target) != Element("BODY") && HasParent(kinds, pg, target)
    ensures var after := OuterSwapped(kinds, pg, rank, target, fragment);
            CleansBelow(kinds, pg.cleaned, after.cleaned, after.kids, target, x)
  {
    var p := pg.parent[target];
    assert target in Kids(pg.kids, p);
    var at := Index(Kids(pg.kids, p), target);
    OuterLists(kinds, pg, rank, target, fragment);
    InsertedValid(kinds, pg, p, at, fragment);
    var between, after := Inserted(kinds, pg, p, at, fragment), OuterSwapped(kinds, pg, rank, target, fragment);
    SubtreeCleaned(kinds, between, after.kids, rank, p, target, pg.cleaned, x);
  }

  lemma OuterRanks(kinds: Kinds, pg: Page, rank: Node -> nat, target: Node, fragment: Node, p: Node, at: nat)
    requires HasParent(kinds, pg, target) && kinds(target) != Element("BODY") && p == pg.parent[target]
    requires target in Kids(pg.kids, p) && at == Index(Kids(pg.kids, p), target)
    requires OuterRanked(kinds, pg, rank, target, fragment)
    ensures p != fragment && Ranked(Inserted(kinds, pg, p, at, fragment).kids, rank)
  {
  }

  lemma OuterEquations(kinds: Kinds, pg: Page, rank: Node -> nat, target: Node, fragment: Node, p: Node, at: nat)
    requires HasParent(kinds, pg, target) && kinds(target) != Element("BODY") && p == pg.parent[target]
    requires target in Kids(pg.kids, p) && at == Index(Kids(pg.kids, p), target)
    requires OuterRanked(kinds, pg, rank, target, fragment)
    requires Ranked(Inserted(kinds, pg, p, at, fragment).kids, rank)
    ensures var ks, between := Kids(pg.kids, p), Inserted(kinds, pg, p, at, fragment);
            var after := OuterSwapped(kinds, pg, rank, target, fragment);
            && after.kids == between.kids[p := ks[..at] + Kids(pg.kids, fragment) + ks[at + 1..]]
            && after.cleaned == pg.cleaned + Clean(kinds, between.kids, rank, target)
  {
  }

  /** An outer swap below a parent, as an insertion and a loss. */
  lemma OuterLists(kinds: Kinds, pg: Page, rank: Node -> nat, target: Node, fragment: Node)
    requires HasParent(kinds, pg, target) && kinds(target) != Element("BODY")
    requires target in Kids(pg.kids, pg.parent[target]) && OuterRanked(kinds, pg, rank, target, fragment)
    ensures var p := pg.parent[target];
            var between := Inserted(kinds, pg, p, Index(Kids(pg.kids, p), target), fragment);
            var after := OuterSwapped(kinds, pg, rank, target, fragment);
            && p != fragment && Ranked(between.kids, rank)
            && LosesAt(between.kids, after.kids, p) && target in Kids(between.kids, p)
            && after.cleaned == pg.cleaned + Clean(kinds, between.kids, rank, target)
  {
    var p := pg.parent[target];
    var at := Index(Kids(pg.kids, p), target);
    OuterRanks(kinds, pg, rank, target, fragment, p, at);
    OuterEquations(kinds, pg, rank, target, fragment, p, at);
    InsertedKids(kinds, pg, p, at, fragment);
    OuterLoses(Inserted(kinds, pg, p, at, fragment).kids, OuterSwapped(kinds, pg, rank, target, fragment).kids, p,
               Kids(pg.kids, p), at, Kids(pg.kids, fragment));
  }

  /** Behind what was cleaned up earlier there is the subtree of `c`, each node of it once. */
  ghost predicate CleansBelow(kinds: Kinds, earlier: seq<Node>, cleaned: seq<Node>, kids: map<Node, seq<Node>>, c: Node,
                              x: Node) {
    && earlier <= cleaned && NoDuplicates(cleaned[|earlier|..])
    && (x in cleaned[|earlier|..] <==> HangsBelow(kinds, kids, c, x))
  }

  /** The subtree of a child that is cleaned up and taken out of its list. */
  lemma SubtreeCleaned(kinds: Kinds, pg: Page, kids': map<Node, seq<Node>>, rank: Node -> nat, p: Node, c: Node,
                       earlier: seq<Node>, x: Node)
    requires Valid(pg) && Ranked(pg.kids, rank) && LosesAt(pg.kids, kids', p) && c in Kids(pg.kids, p)
    ensures CleansBelow(kinds, earlier, earlier + Clean(kinds, pg.kids, rank, c), kids', c, x)
  {
    CleanedOnce(kinds, pg, rank, c);
    CleanedBelow(kinds, pg.kids, kids', rank, p, c, x);
    Behind(earlier, Clean(kinds, pg.kids, rank, c));
  }

  lemma Behind(a: seq<Node>, b: seq<Node>)
    ensures a <= a + b && (a + b)[|a|..] == b
  {
  }

  lemma OuterLoses(kids: map<Node, seq<Node>>, kids': map<Node, seq<Node>>, p: Node, ks: seq<Node>, at: nat,
                   added: seq<Node>)
    requires at < |ks| && Kids(kids, p) == ks[..at] + added + ks[at..]
    requires kids' == kids[p := ks[..at] + added + ks[at + 1..]]
    ensures LosesAt(kids, kids', p) && ks[at] in Kids(kids, p)
  {
    assert ks[at..] == [ks[at]] + ks[at + 1..];
  }

  lemma DeleteCleans(kinds: Kinds, pg: Page, rank: Node -> nat, target: Node, x: Node)
    requires Valid(pg) && Ranked(pg.kids, rank)
    ensures var after := Deleted(kinds, pg, rank, target);
            && pg.cleaned <= after.cleaned && NoDuplicates(after.cleaned[|pg.cleaned|..])
            && (x in after.cleaned[|pg.cleaned|..] <==> HangsBelow(kinds, after.kids, target, x))
  {
    var after := Deleted(kinds, pg, rank, target);
    CleanedOnce(kinds, pg, rank, target);
    assert after.cleaned[|pg.cleaned|..] == Clean(kinds, pg.kids, rank, target);
    if HasParent(kinds, pg, target) {
      var p := pg.parent[target];
      assert target in Kids(pg.kids, p);
      assert LosesAt(pg.kids, after.kids, p);
      CleanedBelow(kinds, pg.kids, after.kids, rank, p, target, x);
    } else {
      CleanedExactly(kinds, pg.kids, rank, target, x);
    }
  }

  /**
    What a style cleans up, and no node twice: everything that a path of element children leads to from a
    node that goes, on the page that is left.
   */
  lemma StyleCleansExactly(kinds: Kinds, pg: Page, rank: Node -> nat, style: string, target: Node, fragment: Node,
                           x: Node)
    requires Valid(pg) && StyleReady(kinds, pg, rank, style, target, fragment)
    ensures var after := StyleSwapped(kinds, pg, rank, style, target, fragment);
            && pg.cleaned <= after.cleaned && NoDuplicates(after.cleaned[|pg.cleaned|..])
            && (x in after.cleaned[|pg.cleaned|..] <==>
                  exists c :: Goes(kinds, pg, style, target, c) && HangsBelow(kinds, after.kids, c, x))
  {
    if Refills(kinds, style, target) {
      RefillCleans(kinds, pg, rank, target, fragment, x);
    } else if style == "outerHTML" && HasParent(kinds, pg, target) {
      OuterCleans(kinds, pg, rank, target, fragment, x);
      assert Goes(kinds, pg, style, target, target);
    } else if style == "delete" {
      DeleteCleans(kinds, pg, rank, target, x);
      assert Goes(kinds, pg, style, target, target);
    }
  }

  // ---- What is loaded and settled ----

  /** The members of `part` are members of `all`, in the order they have there. */
  predicate InOrderOf(part: seq<Node>, all: seq<Node>) {
    && (forall x :: x in part ==> x in all)
    && (forall i, j :: 0 <= i < j < |part| ==> part[i] in all && part[j] in all
                                               && Index(all, part[i]) < Index(all, part[j]))
  }

  lemma {:induction false} LoadableMembers(kinds: Kinds, ns: seq<Node>, k: nat)
    requires NoDuplicates(ns) && k <= |ns|
    ensures forall x :: x in Loadable(kinds, ns[..k]) <==> x in ns[..k] && !kinds(x).Text? && !kinds(x).Comment?
    ensures InOrderOf(Loadable(kinds, ns[..k]), ns)
  {
    if k > 0 {
      LoadableMembers(kinds, ns, k - 1);
      var before, now := Loadable(kinds, ns[..k - 1]), Loadable(kinds, ns[..k]);
      assert ns[..k][..k - 1] == ns[..k - 1] && ns[..k] == ns[..k - 1] + [ns[k - 1]];
      forall x | x in before ensures x in ns && Index(ns, x) < k - 1 {
        var i :| 0 <= i < k - 1 && ns[i] == x;
        IndexOf(ns, i);
      }
      IndexOf(ns, k - 1);
      forall i, j | 0 <= i < j < |now|
        ensures now[i] in ns && now[j] in ns && Index(ns, now[i]) < Index(ns, now[j])
      {
        assert now[i] in before;
      }
    }
  }

  /** The nodes of the fragment but texts and comments will be processed, in order, where a style inserts. */
  lemma StyleLoads(kinds: Kinds, pg: Page, rank: Node -> nat, style: string, target: Node, fragment: Node, x: Node)
    requires Valid(pg) && StyleReady(kinds, pg, rank, style, target, fragment)
    ensures var after, added := StyleSwapped(kinds, pg, rank, style, target, fragment), Kids(pg.kids, fragment);
            && pg.loadTasks <= after.loadTasks && InOrderOf(after.loadTasks[|pg.loadTasks|..], added)
            && (x in after.loadTasks[|pg.loadTasks|..] <==>
                  Inserts(kinds, pg, style, target) && x in added && !kinds(x).Text? && !kinds(x).Comment?)
  {
    var added := Kids(pg.kids, fragment);
    assert NoDuplicates(added);
    LoadableMembers(kinds, added, |added|);
    assert added[..|added|] == added;
    LoadsAre(kinds, pg, rank, style, target, fragment);
    Behind(pg.loadTasks, if Inserts(kinds, pg, style, target) then Loadable(kinds, added) else []);
  }

  lemma LoadsAre(kinds: Kinds, pg: Page, rank: Node -> nat, style: string, target: Node, fragment: Node)
    requires Valid(pg) && StyleReady(kinds, pg, rank, style, target, fragment)
    ensures StyleSwapped(kinds, pg, rank, style, target, fragment).loadTasks ==
              pg.loadTasks + if Inserts(kinds, pg, style, target) then Loadable(kinds, Kids(pg.kids, fragment)) else []
  {
  }

  lemma {:induction false} ElementsMembers(kinds: Kinds, ns: seq<Node>, x: Node)
    ensures x in Elements(kinds, ns) <==> x in ns && kinds(x).Element?
  {
    if ns != [] {
      ElementsMembers(kinds, ns[..|ns| - 1], x);
      assert ns == ns[..|ns| - 1] + [ns[|ns| - 1]];
    }
  }

  lemma {:induction false} ExceptMembers(ns: seq<Node>, y: Node, x: Node)
    ensures x in Except(ns, y) <==> x in ns && x != y
  {
    if ns != [] {
      ExceptMembers(ns[1..], y, x);
    }
  }

  /** The elements that settle: after an outer swap the new ones instead of the target, otherwise those of before. */
  lemma StyleSettles(kinds: Kinds, pg: Page, rank: Node -> nat, style: string, target: Node, fragment: Node, x: Node)
    requires Valid(pg) && StyleReady(kinds, pg, rank, style, target, fragment)
    ensures var after := StyleSwapped(kinds, pg, rank, style, target, fragment);
            if style == "outerHTML" && kinds(target) != Element("BODY") && HasParent(kinds, pg, target) then
              x in after.settleElts <==>
                (x in pg.settleElts && x != target) || (x in Kids(pg.kids, fragment) && kinds(x).Element?)
            else after.settleElts == pg.settleElts
  {
    ExceptMembers(pg.settleElts, target, x);
    ElementsMembers(kinds, Kids(pg.kids, fragment), x);
  }

  // ---- Which style it is ----

  /**
    Seven styles are what their names say whoever else knows them; of the others a strategy or an extension
    is asked first, and what nobody knows is swapped as the default style is.
   */
  lemma StyleChosen(style: string, handles: string -> bool, defaultStyle: string)
    ensures var d := DispatchRun(Trying(style), handles, defaultStyle, 2);
            if style == "none" || style == "outerHTML" || style == "afterbegin" || style == "beforebegin"
               || style == "beforeend" || style == "afterend" || style == "delete" then d == BuiltIn(style)
            else if handles(style) then d == Delegated(style)
            else if style == "innerHTML" then d == BuiltIn(style)
            else IsKnown(defaultStyle, handles) ==> d == DispatchRun(Trying(defaultStyle), handles, defaultStyle, 2)
  {
    TwoTries(style, handles, defaultStyle);
  }
}
