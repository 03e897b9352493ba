/** The part of pugixml the readers use: element handles (possibly null), child lookup by name and
    attribute lookup with defaults. A parsed document is an element whose children are the
    top-level nodes. */
module Xml {
  import opened Common

  datatype Attribute = Attribute(name: string, value: string)

  /** A `pugi::xml_node`: the null node, or an element with its attributes and children in
      document order. */
  datatype Node = Null | Element(name: string, attributes: seq<Attribute>, children: seq<Node>)

  predicate IsNamed(n: Node, name: string)
  {
    n.Element? && n.name == name
  }

  /** Position of the first element named `name` in `ns`, or -1. */
  function FirstNamed(ns: seq<Node>, name: string): (k: int)
    ensures -1 <= k < |ns|
    ensures k >= 0 ==> IsNamed(ns[k], name)
    ensures forall i :: 0 <= i < |ns| && (k == -1 || i < k) ==> !IsNamed(ns[i], name)
  {
    if ns == [] then -1
    else if IsNamed(ns[0], name) then 0
    else
      var k := FirstNamed(ns[1..], name);
      if k == -1 then -1 else k + 1
  }

  /** `node.child(name)`: the first child element with that name; the null node when there is
      none or when `node` itself is null. */
  function Child(n: Node, name: string): (r: Node)
    ensures r != Null ==> n.Element? && IsNamed(r, name) && r in n.children
    ensures r != Null ==> exists k :: 0 <= k < |n.children| && n.children[k] == r &&
                                      forall i :: 0 <= i < k ==> !IsNamed(n.children[i], name)
    ensures r == Null ==> n == Null || forall i :: 0 <= i < |n.children| ==> !IsNamed(n.children[i], name)
  {
    if n == Null then Null
    else
      var k := FirstNamed(n.children, name);
      if k == -1 then Null else n.children[k]
  }

  /** The child elements named `name`, in document order: what `node.children(name)` iterates
      over, and what `child(name)` followed by repeated `next_sibling(name)` visits. */
  function ChildrenNamed(n: Node, name: string): (r: seq<Node>)
    ensures forall i :: 0 <= i < |r| ==> IsNamed(r[i], name)
    ensures n.Element? ==> forall x :: multiset(r)[x] == if IsNamed(x, name) then multiset(n.children)[x] else 0
    ensures n == Null ==> r == []
  {
    if n == Null then []
    else
      FilterCounts(n.children, name);
      Filter(n.children, name)
  }

  /** The elements of `ns` named `name`, in order. */
  function Filter(ns: seq<Node>, name: string): (r: seq<Node>)
    ensures forall i :: 0 <= i < |r| ==> IsNamed(r[i], name)
    ensures |r| <= |ns|
  {
    if ns == [] then []
    else if IsNamed(ns[0], name) then [ns[0]] + Filter(ns[1..], name)
    else Filter(ns[1..], name)
  }

  /** Every element of `ns` named `name` is kept, each as often as it occurs, and no other. */
  lemma {:induction false} FilterCounts(ns: seq<Node>, name: string)
    ensures forall x :: multiset(Filter(ns, name))[x] == if IsNamed(x, name) then multiset(ns)[x] else 0
  {
    if ns != [] {
      FilterCounts(ns[1..], name);
      assert ns == [ns[0]] + ns[1..];
    }
  }

  /** Order: a node after the others contributes itself, when named, after the others' elements. */
  lemma {:induction false} FilterAppend(ns: seq<Node>, x: Node, name: string)
    ensures Filter(ns + [x], name) == Filter(ns, name) + (if IsNamed(x, name) then [x] else [])
  {
    if ns == [] {
      assert ns + [x] == [x];
      assert [x][1..] == [];
    } else {
      assert (ns + [x])[0] == ns[0];
      assert (ns + [x])[1..] == ns[1..] + [x];
      FilterAppend(ns[1..], x, name);
    }
  }

  /** The sibling walk starts at `child(name)`, and is empty exactly when that is null. */
  lemma FirstChildStartsWalk(n: Node, name: string)
    ensures ChildrenNamed(n, name) == [] <==> Child(n, name) == Null
    ensures ChildrenNamed(n, name) != [] ==> ChildrenNamed(n, name)[0] == Child(n, name)
  {
    if n != Null {
      FilterFirst(n.children, name);
    }
  }

  lemma {:induction false} FilterFirst(ns: seq<Node>, name: string)
    ensures Filter(ns, name) == [] <==> FirstNamed(ns, name) == -1
    ensures Filter(ns, name) != [] ==> Filter(ns, name)[0] == ns[FirstNamed(ns, name)]
  {
    if ns != [] && !IsNamed(ns[0], name) {
      FilterFirst(ns[1..], name);
    }
  }

  /** Value of the first attribute named `key` in `attrs`. */
  function Lookup(attrs: seq<Attribute>, key: string): (r: Option<string>)
    ensures r.Some? <==> exists i :: 0 <= i < |attrs| && attrs[i].name == key
    ensures r.Some? ==> exists i :: 0 <= i < |attrs| && attrs[i].name == key && attrs[i].value == r.value &&
                                    forall j :: 0 <= j < i ==> attrs[j].name != key
  {
    if attrs == [] then None
    else if attrs[0].name == key then Some(attrs[0].value)
    else
      var r := Lookup(attrs[1..], key);
      assert forall i :: 1 <= i < |attrs| ==> attrs[i] == attrs[1..][i - 1];
      assert r.Some? ==> exists i :: 0 <= i < |attrs| && attrs[i].name == key && attrs[i].value == r.value &&
                                     forall j :: 0 <= j < i ==> attrs[j].name != key by {
        if r.Some? {
          var i :| 0 <= i < |attrs[1..]| && attrs[1..][i].name == key && attrs[1..][i].value == r.value &&
                   forall j :: 0 <= j < i ==> attrs[1..][j].name != key;
          assert attrs[i + 1].value == r.value;
          assert forall j :: 0 <= j < i + 1 ==> attrs[j].name != key;
        }
      }
      r
  }

  /** `node.attribute(key)`: the value of the element's first attribute named `key`, or None for
      the null attribute (absent key or null node). */
  function AttributeOf(n: Node, key: string): (r: Option<string>)
    ensures n == Null ==> r == None
    ensures r.Some? <==> n.Element? && exists i :: 0 <= i < |n.attributes| && n.attributes[i].name == key
    ensures r.Some? ==> exists i :: 0 <= i < |n.attributes| && n.attributes[i].name == key &&
                                    n.attributes[i].value == r.value &&
                                    forall j :: 0 <= j < i ==> n.attributes[j].name != key
  {
    if n == Null then None else Lookup(n.attributes, key)
  }

  /** `attr.as_string(def)`: the value, or `def` for the null attribute. */
  function AsString(a: Option<string>, def: string): string
  {
    if a.Some? then a.value else def
  }
}
