/**
  The YAML tree the recipes rewrite: an ordered, keyed tree of mappings, sequences and scalars.

  A `Location` is the chain of links from a document root down to a node, each link carrying the
  step taken (a mapping key or a sequence index) and the node reached by it. While a visitor
  descends, the chain is built from the ORIGINAL nodes, as the cursor of an OpenRewrite visitor is.

  A position (`seq<nat>`) addresses a node by child indices, which is unambiguous even when a
  mapping repeats a key; `At` and `LocOf` resolve it.
 */
module Yaml {
  import opened Wrappers

  datatype Node = Scalar(text: string) | Mapping(entries: seq<Entry>) | Sequence(items: seq<Node>)

  datatype Entry = Entry(key: string, value: Node)

  datatype Step = Key(name: string) | Index(index: nat)

  datatype Link = Link(step: Step, node: Node)

  type Location = seq<Link>

  /** Value of the first entry of `es` with key `k`. */
  function Lookup(es: seq<Entry>, k: string): (r: Option<Node>)
    ensures r.Some? <==> exists i :: 0 <= i < |es| && es[i].key == k
    ensures r.Some? ==> exists i :: 0 <= i < |es| && es[i] == Entry(k, r.value)
  {
    if es == [] then None
    else if es[0].key == k then Some(es[0].value)
    else
      var r := Lookup(es[1..], k);
      assert forall i :: 1 <= i < |es| ==> es[i] == es[1..][i - 1];
      r
  }

  function ChildCount(n: Node): nat {
    match n
    case Scalar(_) => 0
    case Mapping(es) => |es|
    case Sequence(items) => |items|
  }

  /** The link a visitor adds when it descends into child `i` of `n`. */
  function Child(n: Node, i: nat): (c: Link)
    requires i < ChildCount(n)
    ensures c.node < n
    ensures c.step.Key? <==> n.Mapping?
  {
    match n
    case Mapping(es) => Link(Key(es[i].key), es[i].value)
    case Sequence(items) => Link(Index(i), items[i])
  }

  /** The node at position `pos` under `n`, if there is one. */
  function At(n: Node, pos: seq<nat>): Option<Node>
    decreases pos
  {
    if pos == [] then Some(n)
    else if pos[0] < ChildCount(n) then At(Child(n, pos[0]).node, pos[1..])
    else None
  }

  /** The chain of links from `n` down to the node at `pos`. */
  function LocOf(n: Node, pos: seq<nat>): (loc: Location)
    requires At(n, pos).Some?
    ensures |loc| == |pos|
    ensures pos != [] ==> loc[|loc| - 1].node == At(n, pos).value
    decreases pos
  {
    if pos == [] then []
    else [Child(n, pos[0])] + LocOf(Child(n, pos[0]).node, pos[1..])
  }

  /** The location ends at the value of a mapping entry. */
  predicate AtEntry(loc: Location) {
    |loc| > 0 && loc[|loc| - 1].step.Key?
  }

  /** A position below `n` is a child of `n` and a position below that child; so is its location. */
  lemma LocStep(n: Node, pos: seq<nat>, loc: Location)
    requires At(n, pos).Some? && pos != []
    ensures pos[0] < ChildCount(n)
    ensures var c := Child(n, pos[0]);
      && At(c.node, pos[1..]) == At(n, pos)
      && LocOf(n, pos) == [c] + LocOf(c.node, pos[1..])
      && loc + LocOf(n, pos) == (loc + [c]) + LocOf(c.node, pos[1..])
  {
    var c := Child(n, pos[0]);
    var tail := LocOf(c.node, pos[1..]);
    assert LocOf(n, pos) == [c] + tail;
    LinksAssoc(loc, c, tail);
  }

  lemma LinksAssoc(loc: Location, c: Link, tail: Location)
    ensures loc + ([c] + tail) == (loc + [c]) + tail
  {
  }

  /** The location of a child is the one link to it. */
  lemma LocLeaf(n: Node, pos: seq<nat>)
    requires At(n, pos).Some? && |pos| == 1
    ensures pos[0] < ChildCount(n)
    ensures LocOf(n, pos) == [Child(n, pos[0])] && At(n, pos) == Some(Child(n, pos[0]).node)
  {
    assert pos[1..] == [];
  }

  /** A deeper position ends at an entry exactly when its part below the child does. */
  lemma LocEntry(n: Node, pos: seq<nat>)
    requires At(n, pos).Some? && |pos| > 1
    ensures pos[0] < ChildCount(n)
    ensures AtEntry(LocOf(n, pos)) == AtEntry(LocOf(Child(n, pos[0]).node, pos[1..]))
  {
    var tail := LocOf(Child(n, pos[0]).node, pos[1..]);
    var whole := LocOf(n, pos);
    assert whole == [Child(n, pos[0])] + tail;
    assert whole[|whole| - 1] == tail[|tail| - 1];
  }

  /** Same kind, same number of children and the same keys in the same order. */
  predicate SameShape(a: Node, b: Node) {
    && a.Scalar? == b.Scalar?
    && a.Mapping? == b.Mapping?
    && ChildCount(a) == ChildCount(b)
    && forall i :: 0 <= i < ChildCount(a) ==> Child(a, i).step == Child(b, i).step
  }

  /**
    The traversal the value-changing visitors share: every mapping entry whose value is a scalar gets
    the text `f(location, text)`; keys, order and every other node are kept. `loc` is the location of
    `n` itself.
   */
  function RewriteScalars(n: Node, loc: Location, f: (Location, string) -> string): (r: Node)
    ensures SameShape(n, r)
  {
    match n
    case Scalar(_) => n
    case Mapping(es) =>
      Mapping(seq(|es|, i requires 0 <= i < |es| =>
        var link := Link(Key(es[i].key), es[i].value);
        Entry(es[i].key,
              if es[i].value.Scalar? then Scalar(f(loc + [link], es[i].value.text))
              else RewriteScalars(es[i].value, loc + [link], f))))
    case Sequence(items) =>
      Sequence(seq(|items|, i requires 0 <= i < |items| =>
        RewriteScalars(items[i], loc + [Link(Index(i), items[i])], f)))
  }

  /** One level of `RewriteScalars`, stated through `Child`. */
  lemma RewriteChild(n: Node, loc: Location, f: (Location, string) -> string, i: nat)
    requires i < ChildCount(n)
    ensures var c := Child(n, i);
      Child(RewriteScalars(n, loc, f), i).node ==
        if c.step.Key? && c.node.Scalar? then Scalar(f(loc + [c], c.node.text))
        else RewriteScalars(c.node, loc + [c], f)
  {
  }

  /**
    What `RewriteScalars` does, position by position: the same positions exist, every node keeps its
    shape, an entry's scalar value becomes `f` of its location and text, and every other scalar is kept.
   */
  lemma {:induction false} RewriteAt(n: Node, loc: Location, f: (Location, string) -> string, pos: seq<nat>)
    ensures At(RewriteScalars(n, loc, f), pos).Some? <==> At(n, pos).Some?
    ensures At(n, pos).Some? ==> SameShape(At(n, pos).value, At(RewriteScalars(n, loc, f), pos).value)
    ensures At(n, pos).Some? && At(n, pos).value.Scalar? ==>
      At(RewriteScalars(n, loc, f), pos) ==
        Some(Scalar(if AtEntry(LocOf(n, pos)) then f(loc + LocOf(n, pos), At(n, pos).value.text)
                    else At(n, pos).value.text))
    decreases pos
  {
    var r := RewriteScalars(n, loc, f);
    if pos != [] && pos[0] < ChildCount(n) {
      var i, rest := pos[0], pos[1..];
      var c := Child(n, i);
      RewriteChild(n, loc, f, i);
      if c.step.Key? && c.node.Scalar? {
        if rest != [] {
          assert At(c.node, rest) == None;
        } else {
          assert LocOf(n, pos) == [c] + LocOf(c.node, []) == [c];
        }
      } else {
        RewriteAt(c.node, loc + [c], f, rest);
        if At(c.node, rest).Some? {
          assert LocOf(n, pos) == [c] + LocOf(c.node, rest);
          assert loc + LocOf(n, pos) == loc + [c] + LocOf(c.node, rest);
          if rest == [] {
            assert c.node.Scalar? ==> !AtEntry(LocOf(n, pos));
          } else {
            assert AtEntry(LocOf(n, pos)) == AtEntry(LocOf(c.node, rest));
          }
        }
      }
    }
  }

  /** Nothing changes when `f` keeps the text of every entry scalar of `n`. */
  lemma {:induction false} RewriteIdentity(n: Node, loc: Location, f: (Location, string) -> string)
    requires forall pos :: At(n, pos).Some? && At(n, pos).value.Scalar? && AtEntry(LocOf(n, pos)) ==>
      f(loc + LocOf(n, pos), At(n, pos).value.text) == At(n, pos).value.text
    ensures RewriteScalars(n, loc, f) == n
  {
    var r := RewriteScalars(n, loc, f);
    forall i | 0 <= i < ChildCount(n)
      ensures Child(r, i).node == Child(n, i).node
    {
      var c := Child(n, i);
      RewriteChild(n, loc, f, i);
      if c.step.Key? && c.node.Scalar? {
        assert [i][1..] == [];
        assert At(n, [i]) == Some(c.node);
        assert LocOf(n, [i]) == [c] + LocOf(c.node, []) == [c];
      } else {
        forall pos | At(c.node, pos).Some? && At(c.node, pos).value.Scalar? && AtEntry(LocOf(c.node, pos))
          ensures f(loc + [c] + LocOf(c.node, pos), At(c.node, pos).value.text) == At(c.node, pos).value.text
        {
          assert [i] + pos != [] && ([i] + pos)[1..] == pos;
          assert At(n, [i] + pos) == At(c.node, pos);
          assert LocOf(n, [i] + pos) == [c] + LocOf(c.node, pos);
          assert loc + LocOf(n, [i] + pos) == loc + [c] + LocOf(c.node, pos);
        }
        RewriteIdentity(c.node, loc + [c], f);
      }
    }
    match n
    case Scalar(_) =>
    case Mapping(es) =>
      assert r.entries == es by {
        forall i | 0 <= i < |es| ensures r.entries[i] == es[i] {
          assert Child(r, i).node == Child(n, i).node;
        }
      }
    case Sequence(items) =>
      assert r.items == items by {
        forall i | 0 <= i < |items| ensures r.items[i] == items[i] {
          assert Child(r, i).node == Child(n, i).node;
        }
      }
  }
}
