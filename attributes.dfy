/** Attributes attached to variables and tasks (`@profile`, `@requires`, ...).
    An attribute has the name it was written with, its resolved type and its
    properties, the words that followed it. */
module Attributes {

  datatype AttrType =
    | Profile | Public | Always | Requires | Then | Map | Multithread
    | MainTask | Interpreter | Cache | Echo | Exclude | Glob | IfOs
    | Unknown

  datatype Attribute = Attribute(name: string, kind: AttrType, props: seq<string>)

  /** `hasAttribute`: some attribute of the list has type t. */
  predicate HasAttribute(attrs: seq<Attribute>, t: AttrType) {
    exists i :: 0 <= i < |attrs| && attrs[i].kind == t
  }

  /** Index of the first attribute of type t, |attrs| when there is none. */
  function FirstOfType(attrs: seq<Attribute>, t: AttrType): (k: nat)
    ensures k <= |attrs|
    ensures k < |attrs| ==> attrs[k].kind == t
    ensures forall i :: 0 <= i < k ==> attrs[i].kind != t
  {
    if attrs == [] then 0
    else if attrs[0].kind == t then 0
    else 1 + FirstOfType(attrs[1..], t)
  }

  /** `getProperties`: the properties of the first attribute of type t. */
  function GetProperties(attrs: seq<Attribute>, t: AttrType): (props: seq<string>)
    requires HasAttribute(attrs, t)
    ensures exists i :: 0 <= i < |attrs| && attrs[i].kind == t && props == attrs[i].props
              && forall j :: 0 <= j < i ==> attrs[j].kind != t
  {
    var k := FirstOfType(attrs, t);
    attrs[k].props
  }

  /** A value stored in one of the tables: the attributes it was declared
      with and what it holds. */
  datatype Item<P> = Item(attributes: seq<Attribute>, payload: P)
}
