/** The slice of the rendered page the hook touches: elements and their
    class lists. Element identity is the DOM node, not its `id` attribute:
    class lists are keyed by node, so a class change reaches the node even
    when the page has since given it another id, two elements may carry the
    same id, and an element may have none. */
module Dom {

  /** The identity of a DOM node. */
  type Node = nat

  /** A rendered element as one query saw it: `node` is its identity, `id`
      its id attribute at that moment (the empty string when it has none). */
  datatype Element = Element(node: Node, id: string)

  /** A change to one element's class list (`classList.add` / `classList.remove`). */
  datatype Effect =
    | AddClass(target: Element, name: string)
    | RemoveClass(target: Element, name: string)

  /** The class lists of the page by node; a node missing from the map has none. */
  type ClassLists = map<Node, set<string>>

  function ClassesOf(dom: ClassLists, n: Node): (r: set<string>)
    ensures n !in dom ==> r == {}
  {
    if n in dom then dom[n] else {}
  }

  /** Applies one class-list change to the target's node; every other node
      keeps its classes. */
  function ApplyEffect(dom: ClassLists, eff: Effect): (r: ClassLists)
    ensures eff.AddClass? ==> ClassesOf(r, eff.target.node) == ClassesOf(dom, eff.target.node) + {eff.name}
    ensures eff.RemoveClass? ==> ClassesOf(r, eff.target.node) == ClassesOf(dom, eff.target.node) - {eff.name}
    ensures forall n :: n != eff.target.node ==> ClassesOf(r, n) == ClassesOf(dom, n)
  {
    match eff
    case AddClass(t, c) => dom[t.node := ClassesOf(dom, t.node) + {c}]
    case RemoveClass(t, c) => dom[t.node := ClassesOf(dom, t.node) - {c}]
  }

  /** Applies class-list changes in order, first to last. */
  function ApplyEffects(dom: ClassLists, effs: seq<Effect>): (r: ClassLists)
    ensures |effs| == 0 ==> r == dom
    decreases |effs|
  {
    if |effs| == 0 then dom else ApplyEffects(ApplyEffect(dom, effs[0]), effs[1..])
  }

  /** Applying `a` then `b` is applying their concatenation. */
  lemma {:induction false} ApplyEffectsAppend(dom: ClassLists, a: seq<Effect>, b: seq<Effect>)
    ensures ApplyEffects(dom, a + b) == ApplyEffects(ApplyEffects(dom, a), b)
    decreases |a|
  {
    if |a| == 0 {
      assert a + b == b;
    } else {
      assert (a + b)[0] == a[0];
      assert (a + b)[1..] == a[1..] + b;
      ApplyEffectsAppend(ApplyEffect(dom, a[0]), a[1..], b);
    }
  }

  /** The nodes of a query result. */
  function Nodes(els: seq<Element>): (r: set<Node>)
    ensures forall n :: n in r <==> exists i :: 0 <= i < |els| && els[i].node == n
    decreases |els|
  {
    if |els| == 0 then {}
    else
      var rest := Nodes(els[1..]);
      assert forall i :: 1 <= i < |els| ==> els[i] == els[1..][i - 1];
      {els[0].node} + rest
  }

  /** The `forEach(card => card.classList.add(name))` over a query result. */
  function AddToAll(els: seq<Element>, name: string): (effs: seq<Effect>)
    ensures |effs| == |els|
    ensures forall i :: 0 <= i < |els| ==> effs[i] == AddClass(els[i], name)
    decreases |els|
  {
    if |els| == 0 then [] else [AddClass(els[0], name)] + AddToAll(els[1..], name)
  }

  /** Adding a class to every listed element gives exactly the listed
      nodes that class and leaves every class list otherwise alone. */
  lemma {:induction false} AddToAllClasses(dom: ClassLists, els: seq<Element>, name: string)
    ensures forall n :: ClassesOf(ApplyEffects(dom, AddToAll(els, name)), n)
                        == ClassesOf(dom, n) + (if n in Nodes(els) then {name} else {})
    decreases |els|
  {
    if |els| > 0 {
      var effs := AddToAll(els, name);
      var dom1 := ApplyEffect(dom, AddClass(els[0], name));
      assert effs == [AddClass(els[0], name)] + AddToAll(els[1..], name);
      assert ApplyEffects(dom, effs) == ApplyEffects(dom1, AddToAll(els[1..], name));
      AddToAllClasses(dom1, els[1..], name);
      assert Nodes(els) == {els[0].node} + Nodes(els[1..]);
    }
  }
}
