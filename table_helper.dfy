/** The table helpers: lookups, removals and realignment over the ordered
    maps (`std::map<std::string, ...>`) that hold variables and tasks. A name
    declared for one profile or one OS is stored under the mangled key
    `name@@profile`; the lookups fall back on those keys, and the realignment
    turns the keys of the active profile back into plain names. */
module TableHelper {
  import opened Wrappers
  import opened StringOrder
  import opened Support
  import opened Attributes

  /** Removing the key at index i of a strictly sorted key list keeps it
      sorted and drops exactly that key. */
  lemma RemoveSorted(ks: seq<string>, i: nat)
    requires StrictlySorted(ks) && i < |ks|
    ensures StrictlySorted(ks[..i] + ks[i + 1..])
    ensures forall y :: y in ks[..i] + ks[i + 1..] <==> y in ks && y != ks[i]
  {
    var r := ks[..i] + ks[i + 1..];
    assert forall j :: 0 <= j < i ==> r[j] == ks[j];
    assert forall j :: i <= j < |r| ==> r[j] == ks[j + 1];
    forall y
      ensures y in r <==> y in ks && y != ks[i]
    {
      if y in r {
        var j :| 0 <= j < |r| && r[j] == y;
        LessIrreflexive(y);
        if j < i {
          assert Less(ks[j], ks[i]);
        } else {
          assert Less(ks[i], ks[j + 1]);
        }
      }
      if y in ks && y != ks[i] {
        var j :| 0 <= j < |ks| && ks[j] == y;
        if j < i {
          assert r[j] == y;
        } else {
          assert r[j - 1] == y;
        }
      }
    }
  }

  // ---------------------------------------------------------------------
  // What a lookup settles on
  // ---------------------------------------------------------------------

  /** `HasAttrOnMapped`, or no filter at all when attr is None. */
  predicate Accepts<P>(v: Item<P>, attr: Option<AttrType>) {
    attr.None? || HasAttribute(v.attributes, attr.value)
  }

  /** The key is present and its value passes the attribute filter. */
  predicate Hit<P>(m: map<string, Item<P>>, k: string, attr: Option<AttrType>) {
    k in m && Accepts(m[k], attr)
  }

  /** The first profile, in list order, whose mangled key `key@@profile`
      is a hit. */
  function FirstMangled<P>(m: map<string, Item<P>>, key: string, profiles: seq<string>, attr: Option<AttrType>): (r: Option<string>)
    ensures r.None? <==> forall i :: 0 <= i < |profiles| ==> !Hit(m, GenerateMangling(key, profiles[i]), attr)
    ensures r.Some? ==> exists i :: 0 <= i < |profiles| && r.value == GenerateMangling(key, profiles[i])
                          && Hit(m, r.value, attr)
                          && forall j :: 0 <= j < i ==> !Hit(m, GenerateMangling(key, profiles[j]), attr)
  {
    if profiles == [] then None
    else if Hit(m, GenerateMangling(key, profiles[0]), attr) then Some(GenerateMangling(key, profiles[0]))
    else
      var r := FirstMangled(m, key, profiles[1..], attr);
      assert forall i :: 1 <= i < |profiles| ==> profiles[1..][i - 1] == profiles[i];
      r
  }

  /** The key a profile lookup settles on: the exact key when it is a hit,
      otherwise the first profile's mangled key that is. */
  function Chosen<P>(m: map<string, Item<P>>, key: string, profiles: seq<string>, attr: Option<AttrType>): (r: Option<string>)
    ensures r.Some? ==> Hit(m, r.value, attr) && FromKey(key, r.value, profiles)
  {
    if Hit(m, key, attr) then Some(key) else FirstMangled(m, key, profiles, attr)
  }

  /** c is the table key looked up for key: key itself or one of its
      mangled forms `key@@profile`. */
  ghost predicate FromKey(key: string, c: string, profiles: seq<string>) {
    c == key || exists j :: 0 <= j < |profiles| && c == GenerateMangling(key, profiles[j])
  }

  /** The value that key resolves to: the exact key's whenever it is a
      hit, otherwise the entry of the first profile in list order whose
      mangled key is a hit, and nothing exactly when no profile's key is. */
  function Resolve<P>(m: map<string, Item<P>>, key: string, profiles: seq<string>, attr: Option<AttrType>): (r: Option<Item<P>>)
    ensures r.Some? ==> Accepts(r.value, attr)
    ensures Hit(m, key, attr) ==> r == Some(m[key])
    ensures !Hit(m, key, attr) ==>
              (r.None? <==> forall i :: 0 <= i < |profiles| ==> !Hit(m, GenerateMangling(key, profiles[i]), attr))
    ensures !Hit(m, key, attr) && r.Some? ==>
              exists i :: 0 <= i < |profiles| && Hit(m, GenerateMangling(key, profiles[i]), attr)
                && r.value == m[GenerateMangling(key, profiles[i])]
                && forall j :: 0 <= j < i ==> !Hit(m, GenerateMangling(key, profiles[j]), attr)
  {
    match Chosen(m, key, profiles, attr)
    case None => None
    case Some(k) => Some(m[k])
  }

  /** The values that GetValues collects: each key of ks in turn, resolved
      through the profiles, kept when it resolves. */
  function Gathered<P>(m: map<string, Item<P>>, ks: seq<string>, profiles: seq<string>, attr: AttrType): (vs: seq<Item<P>>)
    ensures |vs| <= |ks|
  {
    if ks == [] then []
    else
      Gathered(m, ks[..|ks| - 1], profiles, attr)
        + match Resolve(m, ks[|ks| - 1], profiles, Some(attr)) case Some(v) => [v] case None => []
  }

  /** Gathering one key further appends what that key resolves to. */
  lemma GatheredNext<P>(m: map<string, Item<P>>, ks: seq<string>, i: nat, profiles: seq<string>, attr: AttrType)
    requires i < |ks|
    ensures Gathered(m, ks[..i + 1], profiles, attr)
              == Gathered(m, ks[..i], profiles, attr)
                 + match Resolve(m, ks[i], profiles, Some(attr)) case Some(v) => [v] case None => []
  {
    assert ks[..i + 1][..i] == ks[..i];
  }

  /** Every value GetValues collects carries attr, and every key that
      itself carries attr contributes its own value. */
  lemma {:induction false} GatheredMembers<P>(m: map<string, Item<P>>, ks: seq<string>, profiles: seq<string>, attr: AttrType)
    ensures forall t :: 0 <= t < |Gathered(m, ks, profiles, attr)| ==> HasAttribute(Gathered(m, ks, profiles, attr)[t].attributes, attr)
    ensures forall i :: 0 <= i < |ks| && Hit(m, ks[i], Some(attr)) ==> m[ks[i]] in Gathered(m, ks, profiles, attr)
  {
    if ks != [] {
      var init := ks[..|ks| - 1];
      GatheredMembers(m, init, profiles, attr);
      assert forall i :: 0 <= i < |init| ==> init[i] == ks[i];
    }
  }

  /** The values under the keys ks that carry attr, in the order of ks. */
  function Selected<P>(m: map<string, Item<P>>, ks: seq<string>, attr: AttrType): (vs: seq<Item<P>>)
    requires forall i :: 0 <= i < |ks| ==> ks[i] in m
    ensures |vs| <= |ks|
  {
    if ks == [] then []
    else
      Selected(m, ks[..|ks| - 1], attr)
        + if HasAttribute(m[ks[|ks| - 1]].attributes, attr) then [m[ks[|ks| - 1]]] else []
  }

  /** v is the value of one of the keys ks. */
  ghost predicate StoredUnder<P>(m: map<string, Item<P>>, ks: seq<string>, v: Item<P>)
    requires forall i :: 0 <= i < |ks| ==> ks[i] in m
  {
    exists i :: 0 <= i < |ks| && m[ks[i]] == v
  }

  /** Selected keeps exactly the values that carry attr. */
  lemma {:induction false} SelectedMembers<P>(m: map<string, Item<P>>, ks: seq<string>, attr: AttrType)
    requires forall i :: 0 <= i < |ks| ==> ks[i] in m
    ensures forall t :: 0 <= t < |Selected(m, ks, attr)| ==> HasAttribute(Selected(m, ks, attr)[t].attributes, attr)
    ensures forall t :: 0 <= t < |Selected(m, ks, attr)| ==> StoredUnder(m, ks, Selected(m, ks, attr)[t])
    ensures forall i :: 0 <= i < |ks| && HasAttribute(m[ks[i]].attributes, attr) ==> m[ks[i]] in Selected(m, ks, attr)
  {
    if ks != [] {
      var init := ks[..|ks| - 1];
      SelectedMembers(m, init, attr);
      assert forall i :: 0 <= i < |init| ==> init[i] == ks[i];
      var r := Selected(m, init, attr);
      var last := ks[|ks| - 1];
      var vs := Selected(m, ks, attr);
      assert vs == r + if HasAttribute(m[last].attributes, attr) then [m[last]] else [];
      forall t | 0 <= t < |vs|
        ensures StoredUnder(m, ks, vs[t])
      {
        if t < |r| {
          assert vs[t] == r[t];
          var i :| 0 <= i < |init| && m[init[i]] == r[t];
          assert m[ks[i]] == vs[t];
        } else {
          assert m[ks[|ks| - 1]] == vs[t];
        }
      }
    }
  }

  /** Nothing is selected exactly when no key carries attr. */
  lemma SelectedEmpty<P>(m: map<string, Item<P>>, ks: seq<string>, attr: AttrType)
    requires forall i :: 0 <= i < |ks| ==> ks[i] in m
    ensures Selected(m, ks, attr) == [] <==> forall i :: 0 <= i < |ks| ==> !HasAttribute(m[ks[i]].attributes, attr)
  {
    SelectedMembers(m, ks, attr);
    var vs := Selected(m, ks, attr);
    if vs != [] {
      assert StoredUnder(m, ks, vs[0]);
      var j :| 0 <= j < |ks| && m[ks[j]] == vs[0];
      assert HasAttribute(m[ks[j]].attributes, attr);
    }
  }

  // ---------------------------------------------------------------------
  // Realignment on a profile or an OS
  // ---------------------------------------------------------------------

  /** The profile part of a mangled key: what follows its first "@@". */
  function Suffix(k: string): string
    requires MangleIndex(k) < |k|
  {
    k[MangleIndex(k) + 2..]
  }

  /** The keys the realignment handles: mangled keys whose values pass the
      filter. */
  function MangledKeys<P>(m: map<string, Item<P>>, attr: Option<AttrType>): set<string> {
    set k | k in m && MangleIndex(k) < |k| && Accepts(m[k], attr)
  }

  /** Plain name k takes the value of `k@@tag`, one of the handled keys. */
  predicate Promoted(handled: set<string>, tag: string, k: string) {
    GenerateMangling(k, tag) in handled && Demangle(GenerateMangling(k, tag)) == k
  }

  /** One more key of a list without repetitions is handled. */
  lemma HandledStep(list: seq<string>, n: nat, handled: set<string>, all: set<string>)
    requires n < |list|
    requires forall t, u :: 0 <= t < u < |list| ==> Less(list[t], list[u])
    requires forall k :: k in list <==> k in all
    requires forall t :: 0 <= t < n ==> list[t] in handled
    requires forall t :: n <= t < |list| ==> list[t] !in handled
    requires handled <= all
    ensures list[n] in all && list[n] !in handled
    ensures forall t :: 0 <= t < n + 1 ==> list[t] in handled + {list[n]}
    ensures forall t :: n + 1 <= t < |list| ==> list[t] !in handled + {list[n]}
    ensures handled + {list[n]} <= all
  {
    forall t | n < t < |list|
      ensures list[t] != list[n]
    {
      LessIrreflexive(list[n]);
    }
  }

  /** m is m0 realigned on tag once the keys in handled are dealt with:
      handled keys are gone, a plain name whose `name@@tag` was handled holds
      that value, and every other key keeps its value. With nothing handled
      yet this says m is m0 (AlignedParts). */
  ghost predicate IsAligned<P>(m0: map<string, Item<P>>, m: map<string, Item<P>>, handled: set<string>, tag: string) {
    if handled == {} then m == m0
    else AlignedKeys(m0, m, handled, tag) && AlignedValues(m0, m, handled, tag)
  }

  ghost predicate AlignedKeys<P>(m0: map<string, Item<P>>, m: map<string, Item<P>>, handled: set<string>, tag: string) {
    forall k {:trigger k in m} :: k in m <==> (k in m0 && k !in handled) || Promoted(handled, tag, k)
  }

  ghost predicate AlignedValues<P>(m0: map<string, Item<P>>, m: map<string, Item<P>>, handled: set<string>, tag: string) {
    forall k {:trigger k in m} :: k in m ==>
      if Promoted(handled, tag, k) then GenerateMangling(k, tag) in m0 && m[k] == m0[GenerateMangling(k, tag)]
      else k in m0 && m[k] == m0[k]
  }

  /** Whether or not anything was handled, an aligned map has the keys and
      values described by AlignedKeys and AlignedValues. */
  lemma AlignedParts<P>(m0: map<string, Item<P>>, m: map<string, Item<P>>, handled: set<string>, tag: string)
    requires IsAligned(m0, m, handled, tag)
    ensures AlignedKeys(m0, m, handled, tag) && AlignedValues(m0, m, handled, tag)
  {
    if handled == {} {
      forall k ensures !Promoted(handled, tag, k) {}
    }
  }

  /** A mangled key is its base, "@@" and its suffix; the base holds no
      "@@"; and mangling the key again keeps the cut where it was. */
  lemma MangleParts(mk: string, tag: string)
    requires MangleIndex(mk) < |mk|
    ensures mk == GenerateMangling(Demangle(mk), Suffix(mk))
    ensures MangleIndex(Demangle(mk)) == |Demangle(mk)|
    ensures Demangle(GenerateMangling(mk, tag)) != mk
  {
    var pos := MangleIndex(mk);
    assert mk == mk[..pos] + "@@" + mk[pos + 2..];
    var base := Demangle(mk);
    forall i | 0 <= i < |base|
      ensures !MangleAt(base, i)
    {
      assert !MangleAt(mk, i);
    }
    var mm := GenerateMangling(mk, tag);
    assert MangleAt(mm, pos);
    forall i | 0 <= i < pos
      ensures !MangleAt(mm, i)
    {
      assert !MangleAt(mk, i);
    }
    MangleIndexIs(mm, pos);
  }

  /** A mangled name that cuts back to k has the tag as its suffix. */
  lemma MangledSuffix(k: string, tag: string)
    ensures MangleIndex(GenerateMangling(k, tag)) < |GenerateMangling(k, tag)|
    ensures Demangle(GenerateMangling(k, tag)) == k ==> Suffix(GenerateMangling(k, tag)) == tag
  {
    var s := GenerateMangling(k, tag);
    assert MangleAt(s, |k|);
  }

  /** A mangled key is never promoted: only plain names are. */
  lemma NotPromotedMangled(handled: set<string>, tag: string, k: string)
    requires MangleIndex(k) < |k|
    ensures !Promoted(handled, tag, k)
  {
    MangleParts(k, tag);
  }

  /** Handling one more key promotes at most its own base. */
  lemma PromotedAdd(handled: set<string>, tag: string, mk: string, k: string)
    requires MangleIndex(mk) < |mk|
    ensures Promoted(handled + {mk}, tag, k) <==> Promoted(handled, tag, k) || (Suffix(mk) == tag && k == Demangle(mk))
  {
    MangleParts(mk, tag);
    MangledSuffix(k, tag);
  }

  /** Handling a key whose suffix is another tag erases it. */
  lemma AlignErase<P>(m0: map<string, Item<P>>, m: map<string, Item<P>>, handled: set<string>, tag: string, mk: string)
    requires IsAligned(m0, m, handled, tag)
    requires mk in m0 && mk !in handled && MangleIndex(mk) < |mk| && Suffix(mk) != tag
    ensures mk in m
    ensures IsAligned(m0, m - {mk}, handled + {mk}, tag)
  {
    NotPromotedMangled(handled, tag, mk);
    forall k
      ensures Promoted(handled + {mk}, tag, k) <==> Promoted(handled, tag, k)
    {
      PromotedAdd(handled, tag, mk, k);
    }
  }

  /** Handling a key whose suffix is the tag moves its value to its base. */
  lemma AlignPromote<P>(m0: map<string, Item<P>>, m: map<string, Item<P>>, handled: set<string>, tag: string, mk: string)
    requires IsAligned(m0, m, handled, tag)
    requires mk in m0 && mk !in handled && MangleIndex(mk) < |mk| && Suffix(mk) == tag
    requires forall h :: h in handled ==> MangleIndex(h) < |h|
    ensures mk in m && m[mk] == m0[mk] && Demangle(mk) != mk
    ensures IsAligned(m0, m[Demangle(mk) := m[mk]] - {mk}, handled + {mk}, tag)
  {
    NotPromotedMangled(handled, tag, mk);
    MangleParts(mk, tag);
    var base := Demangle(mk);
    var m1 := m[base := m[mk]] - {mk};
    var h1 := handled + {mk};
    assert base !in handled;
    assert GenerateMangling(base, tag) == mk;
    assert !Promoted(handled, tag, base);
    forall k
      ensures Promoted(h1, tag, k) <==> Promoted(handled, tag, k) || k == base
    {
      PromotedAdd(handled, tag, mk, k);
    }
    assert AlignedKeys(m0, m1, h1, tag);
    assert AlignedValues(m0, m1, h1, tag);
  }

  /** After realignment no handled key is left, and a mangled key that is
      left was not handled and kept its value. */
  lemma AlignedMangledLeft<P>(m0: map<string, Item<P>>, m: map<string, Item<P>>, attr: Option<AttrType>, tag: string, k: string)
    requires IsAligned(m0, m, MangledKeys(m0, attr), tag)
    requires k in m && MangleIndex(k) < |k|
    ensures k in m0 && !Accepts(m0[k], attr) && m[k] == m0[k]
  {
    AlignedParts(m0, m, MangledKeys(m0, attr), tag);
    NotPromotedMangled(MangledKeys(m0, attr), tag, k);
  }

  /** The value of `base@@tag`, when that key was handled and cuts back to
      base, becomes the value of base. */
  lemma AlignedPromotes<P>(m0: map<string, Item<P>>, m: map<string, Item<P>>, attr: Option<AttrType>, tag: string, base: string)
    requires IsAligned(m0, m, MangledKeys(m0, attr), tag)
    requires MangleIndex(base) == |base| && (base == [] || base[|base| - 1] != '@')
    requires Hit(m0, GenerateMangling(base, tag), attr)
    ensures base in m && m[base] == m0[GenerateMangling(base, tag)]
  {
    AlignedParts(m0, m, MangledKeys(m0, attr), tag);
    DemangleGenerated(base, tag);
    assert MangleAt(GenerateMangling(base, tag), |base|);
  }

  /** Keys the realignment does not handle and no handled key overrides
      keep their values. */
  lemma AlignedUntouched<P>(m0: map<string, Item<P>>, m: map<string, Item<P>>, attr: Option<AttrType>, tag: string, k: string)
    requires IsAligned(m0, m, MangledKeys(m0, attr), tag)
    requires k in m0 && (MangleIndex(k) == |k| || !Accepts(m0[k], attr))
    requires !Hit(m0, GenerateMangling(k, tag), attr)
    ensures k in m && m[k] == m0[k]
  {
    AlignedParts(m0, m, MangledKeys(m0, attr), tag);
    if Promoted(MangledKeys(m0, attr), tag, k) {
      assert Hit(m0, GenerateMangling(k, tag), attr);
    }
  }

  // ---------------------------------------------------------------------
  // The table
  // ---------------------------------------------------------------------

  /** The bookkeeping of `TakeValues` after i keys of ks: the keys asked
      for so far come from ks[..i] in strictly increasing order, and the
      t-th value taken was found under asked[t] itself or one of its
      mangled forms. */
  ghost predicate AskedInOrder(asked: seq<string>, taken: seq<string>, ks: seq<string>, i: nat, profiles: seq<string>) {
    |asked| == |taken| && i <= |ks| && StrictlySorted(asked)
    && (forall t :: 0 <= t < |asked| ==> asked[t] in ks[..i])
    && (forall t :: 0 <= t < |asked| ==> FromKey(asked[t], taken[t], profiles))
  }

  lemma AskedSkip(asked: seq<string>, taken: seq<string>, ks: seq<string>, i: nat, profiles: seq<string>)
    requires AskedInOrder(asked, taken, ks, i, profiles) && i < |ks|
    ensures AskedInOrder(asked, taken, ks, i + 1, profiles)
  {
    assert forall t :: 0 <= t < |asked| ==> asked[t] in ks[..i + 1] by {
      assert forall x :: x in ks[..i] ==> x in ks[..i + 1] by {
        assert ks[..i + 1] == ks[..i] + [ks[i]];
      }
    }
  }

  lemma AskedStep(asked: seq<string>, taken: seq<string>, ks: seq<string>, i: nat, profiles: seq<string>, c: string)
    requires StrictlySorted(ks) && i < |ks|
    requires AskedInOrder(asked, taken, ks, i, profiles) && FromKey(ks[i], c, profiles)
    ensures AskedInOrder(asked + [ks[i]], taken + [c], ks, i + 1, profiles)
  {
    var a := asked + [ks[i]];
    assert ks[..i + 1] == ks[..i] + [ks[i]];
    forall t | 0 <= t < |asked|
      ensures Less(asked[t], ks[i])
    {
      var j :| 0 <= j < i && ks[j] == asked[t];
    }
    forall t, u | 0 <= t < u < |a|
      ensures Less(a[t], a[u])
    {
      if u < |asked| {
      }
    }
  }

  /** None of the first i keys of ks that are still in m holds, in the
      table m0 it came from, a value carrying attr. */
  ghost predicate Cleared<P>(m0: map<string, Item<P>>, m: map<string, Item<P>>, ks: seq<string>, i: nat, attr: AttrType) {
    forall j :: 0 <= j < i && j < |ks| && ks[j] in m ==> ks[j] in m0 && !HasAttribute(m0[ks[j]].attributes, attr)
  }

  lemma ClearedStep<P>(m0: map<string, Item<P>>, m: map<string, Item<P>>, m': map<string, Item<P>>, ks: seq<string>, i: nat, attr: AttrType)
    requires Cleared(m0, m, ks, i, attr) && i < |ks|
    requires forall x :: x in m' ==> x in m
    requires ks[i] in m' ==> ks[i] in m0 && !HasAttribute(m0[ks[i]].attributes, attr)
    ensures Cleared(m0, m', ks, i + 1, attr)
  {
    forall j | 0 <= j <= i && ks[j] in m'
      ensures ks[j] in m0 && !HasAttribute(m0[ks[j]].attributes, attr)
    {
      if j < i {
        assert ks[j] in m;
      }
    }
  }

  class Table<P> {
    /** The keys, in table order. */
    var keys: seq<string>
    /** The value stored under each key. */
    var contents: map<string, Item<P>>

    ghost predicate Valid()
      reads this
    {
      StrictlySorted(keys) && forall k :: k in keys <==> k in contents
    }

    constructor ()
      ensures Valid() && keys == [] && contents == map[]
    {
      keys, contents := [], map[];
    }

    /** `table.erase(k)`. */
    method Erase(k: string)
      requires Valid()
      modifies this
      ensures Valid() && contents == old(contents) - {k}
    {
      var i := 0;
      while i < |keys| && keys[i] != k
        invariant i <= |keys|
        invariant forall j :: 0 <= j < i ==> keys[j] != k
      {
        i := i + 1;
      }
      if i < |keys| {
        RemoveSorted(keys, i);
        keys := keys[..i] + keys[i + 1..];
      }
      contents := contents - {k};
    }

    /** `table[k] = v`, or inserting a node under k when k is absent. */
    method Put(k: string, v: Item<P>)
      requires Valid()
      modifies this
      ensures Valid() && contents == old(contents)[k := v]
    {
      if k !in contents {
        keys := InsertUnique(keys, k);
      }
      contents := contents[k := v];
    }

    /** `Keys`: every key, once, in table order. */
    method Keys() returns (ks: seq<string>)
      requires Valid()
      ensures ks == keys
      ensures StrictlySorted(ks)
      ensures forall k :: k in ks <==> k in contents
    {
      ks := [];
      var i := 0;
      while i < |keys|
        invariant i <= |keys| && ks == keys[..i]
      {
        ks := ks + [keys[i]];
        i := i + 1;
      }
    }

    /** `GetValue(table, attr)`: the first value in key order that carries
        attr; none when no value does. */
    method GetValueWith(attr: AttrType) returns (r: Option<Item<P>>)
      requires Valid()
      ensures r.None? <==> forall i :: 0 <= i < |keys| ==> !HasAttribute(contents[keys[i]].attributes, attr)
      ensures r.Some? ==> exists i :: 0 <= i < |keys| && r.value == contents[keys[i]]
                            && HasAttribute(r.value.attributes, attr)
                            && forall j :: 0 <= j < i ==> !HasAttribute(contents[keys[j]].attributes, attr)
    {
      var i := 0;
      while i < |keys|
        invariant i <= |keys|
        invariant forall j :: 0 <= j < i ==> !HasAttribute(contents[keys[j]].attributes, attr)
      {
        if HasAttribute(contents[keys[i]].attributes, attr) {
          return Some(contents[keys[i]]);
        }
        i := i + 1;
      }
      return None;
    }

    /** `GetValues(table, attr)`: the values carrying attr in key order, or
        none when there are no such values. */
    method GetValuesWith(attr: AttrType) returns (r: Option<seq<Item<P>>>)
      requires Valid()
      ensures r.None? <==> forall i :: 0 <= i < |keys| ==> !HasAttribute(contents[keys[i]].attributes, attr)
      ensures r.Some? ==> r.value == Selected(contents, keys, attr) && r.value != []
    {
      var vec := [];
      var i := 0;
      while i < |keys|
        invariant i <= |keys|
        invariant vec == Selected(contents, keys[..i], attr)
      {
        assert keys[..i + 1][..i] == keys[..i];
        if HasAttribute(contents[keys[i]].attributes, attr) {
          vec := vec + [contents[keys[i]]];
        }
        i := i + 1;
      }
      assert keys[..i] == keys;
      SelectedEmpty(contents, keys, attr);
      if vec == [] {
        return None;
      }
      return Some(vec);
    }

    /** `GetValue(table, key, profiles[, attr])`; the overloads taking one
        profile are the case of a one-element list, those without an
        attribute the case attr == None. */
    method GetValue(key: string, profiles: seq<string>, attr: Option<AttrType>) returns (r: Option<Item<P>>)
      requires Valid()
      ensures r == Resolve(contents, key, profiles, attr)
    {
      if key in contents && Accepts(contents[key], attr) {
        return Some(contents[key]);
      }
      var i := 0;
      while i < |profiles|
        invariant i <= |profiles|
        invariant forall j :: 0 <= j < i ==> !Hit(contents, GenerateMangling(key, profiles[j]), attr)
      {
        var mk := GenerateMangling(key, profiles[i]);
        if mk in contents && Accepts(contents[mk], attr) {
          assert Hit(contents, mk, attr);
          return Some(contents[mk]);
        }
        i := i + 1;
      }
      return None;
    }

    /** `GetValues(table, profiles, attr)`: every key in table order,
        resolved through the profiles. */
    method GetValues(profiles: seq<string>, attr: AttrType) returns (vec: seq<Item<P>>)
      requires Valid()
      ensures vec == Gathered(contents, keys, profiles, attr)
    {
      vec := [];
      var i := 0;
      while i < |keys|
        invariant i <= |keys|
        invariant vec == Gathered(contents, keys[..i], profiles, attr)
      {
        GatheredNext(contents, keys, i, profiles, attr);
        var r := GetValue(keys[i], profiles, Some(attr));
        if r.Some? {
          vec := vec + [r.value];
        }
        i := i + 1;
      }
      assert keys[..i] == keys;
    }

    /** `TakeValue(table, key, profiles[, attr])`: removes and returns the
        value the key resolves to; the table is otherwise unchanged. */
    method TakeValue(key: string, profiles: seq<string>, attr: Option<AttrType>) returns (r: Option<Item<P>>)
      requires Valid()
      modifies this
      ensures Valid()
      ensures r == Resolve(old(contents), key, profiles, attr)
      ensures Chosen(old(contents), key, profiles, attr).None? ==> contents == old(contents)
      ensures Chosen(old(contents), key, profiles, attr).Some? ==>
                contents == old(contents) - {Chosen(old(contents), key, profiles, attr).value}
    {
      if key in contents && Accepts(contents[key], attr) {
        r := Some(contents[key]);
        Erase(key);
        return;
      }
      var i := 0;
      while i < |profiles|
        invariant i <= |profiles|
        invariant forall j :: 0 <= j < i ==> !Hit(contents, GenerateMangling(key, profiles[j]), attr)
      {
        var mk := GenerateMangling(key, profiles[i]);
        if mk in contents && Accepts(contents[mk], attr) {
          assert Hit(contents, mk, attr);
          r := Some(contents[mk]);
          Erase(mk);
          return;
        }
        i := i + 1;
      }
      return None;
    }

    /** What `TakeValues` keeps while it runs, from the table m0 it
        started with: the t-th value taken is m0's entry under taken[t],
        no key is taken twice, every value taken carries attr, and the
        table is m0 less the keys taken. */
    ghost predicate Taking(m0: map<string, Item<P>>, vec: seq<Item<P>>, taken: seq<string>, attr: AttrType)
      reads this
    {
      |taken| == |vec|
      && (forall t :: 0 <= t < |taken| ==> taken[t] in m0 && vec[t] == m0[taken[t]])
      && (forall t, u :: 0 <= t < u < |taken| ==> taken[t] != taken[u])
      && (forall x :: x in contents <==> x in m0 && x !in taken)
      && (forall x :: x in contents ==> contents[x] == m0[x])
      && (forall t :: 0 <= t < |vec| ==> HasAttribute(vec[t].attributes, attr))
    }

    /** The table and the values taken, as `Taking` states them. */
    lemma TakenAll(m0: map<string, Item<P>>, vec: seq<Item<P>>, taken: seq<string>, attr: AttrType)
      requires Taking(m0, vec, taken, attr)
      ensures |taken| == |vec|
      ensures forall i :: 0 <= i < |taken| ==> taken[i] in m0 && vec[i] == m0[taken[i]]
      ensures forall i, j :: 0 <= i < j < |taken| ==> taken[i] != taken[j]
      ensures contents == m0 - (set k | k in taken)
      ensures forall i :: 0 <= i < |vec| ==> HasAttribute(vec[i].attributes, attr)
    {
    }

    /** One step of `TakeValues`: key k, still present, is taken through
        the profiles, and what was taken is appended to vec and taken. */
    method TakeOne(ghost m0: map<string, Item<P>>, vec: seq<Item<P>>, ghost taken: seq<string>, k: string, profiles: seq<string>, attr: AttrType)
      returns (vec': seq<Item<P>>, ghost taken': seq<string>, ghost got: bool, ghost c: string)
      requires Valid() && k in contents
      requires Taking(m0, vec, taken, attr)
      modifies this
      ensures Valid()
      ensures Taking(m0, vec', taken', attr)
      ensures k in contents ==> !HasAttribute(m0[k].attributes, attr)
      ensures forall x :: x in contents ==> x in old(contents)
      ensures !got ==> taken' == taken
      ensures got ==> taken' == taken + [c] && FromKey(k, c, profiles)
    {
      ghost var chosen := Chosen(contents, k, profiles, Some(attr));
      var r := TakeValue(k, profiles, Some(attr));
      vec', taken', got, c := vec, taken, false, "";
      if r.Some? {
        vec' := vec + [r.value];
        taken', got, c := taken + [chosen.value], true, chosen.value;
      }
    }

    /** The body of the `TakeValues` loop for the i-th key of the snapshot
        ks: taken if still present, skipped otherwise. */
    method TakeStep(ghost m0: map<string, Item<P>>, vec: seq<Item<P>>, ghost taken: seq<string>, ghost asked: seq<string>,
                    ks: seq<string>, i: nat, profiles: seq<string>, attr: AttrType)
      returns (vec': seq<Item<P>>, ghost taken': seq<string>, ghost asked': seq<string>)
      requires Valid() && StrictlySorted(ks) && i < |ks|
      requires Taking(m0, vec, taken, attr) && AskedInOrder(asked, taken, ks, i, profiles) && Cleared(m0, contents, ks, i, attr)
      modifies this
      ensures Valid() && Taking(m0, vec', taken', attr)
      ensures AskedInOrder(asked', taken', ks, i + 1, profiles) && Cleared(m0, contents, ks, i + 1, attr)
    {
      ghost var contents0 := contents;
      vec', taken', asked' := vec, taken, asked;
      ghost var got, c := false, "";
      if ks[i] in contents {
        vec', taken', got, c := TakeOne(m0, vec, taken, ks[i], profiles, attr);
      }
      if got {
        AskedStep(asked, taken, ks, i, profiles, c);
        asked' := asked + [ks[i]];
      } else {
        AskedSkip(asked, taken, ks, i, profiles);
      }
      ClearedStep(m0, contents0, contents, ks, i, attr);
    }

    /** `TakeValues(table, profiles, attr)`: each key of the table, in order
        and while still present, is taken through the profiles. Every value
        returned was removed, each key at most once, and no value carrying
        attr is left. */
    method TakeValues(profiles: seq<string>, attr: AttrType)
      returns (vec: seq<Item<P>>, ghost taken: seq<string>, ghost asked: seq<string>)
      requires Valid()
      modifies this
      ensures Valid()
      ensures AskedInOrder(asked, taken, old(keys), |old(keys)|, profiles)
      ensures |taken| == |vec|
      ensures forall i :: 0 <= i < |taken| ==> taken[i] in old(contents) && vec[i] == old(contents)[taken[i]]
      ensures forall i, j :: 0 <= i < j < |taken| ==> taken[i] != taken[j]
      ensures contents == old(contents) - (set k | k in taken)
      ensures forall i :: 0 <= i < |vec| ==> HasAttribute(vec[i].attributes, attr)
      ensures forall k :: k in contents ==> !HasAttribute(contents[k].attributes, attr)
    {
      ghost var m0 := contents;
      var ks := keys;
      vec, taken, asked := [], [], [];
      var i := 0;
      while i < |ks|
        invariant Valid() && i <= |ks|
        invariant AskedInOrder(asked, taken, ks, i, profiles)
        invariant Taking(m0, vec, taken, attr)
        invariant Cleared(m0, contents, ks, i, attr)
      {
        vec, taken, asked := TakeStep(m0, vec, taken, asked, ks, i, profiles, attr);
        i := i + 1;
      }
      TakenAll(m0, vec, taken, attr);
      forall k | k in contents
        ensures !HasAttribute(contents[k].attributes, attr)
      {
        assert k in ks;
      }
    }

    /** The first pass of the realignment: the mangled keys whose values
        pass the filter, in table order. */
    method MangledList(attr: Option<AttrType>) returns (list: seq<string>)
      requires Valid()
      ensures forall t, u :: 0 <= t < u < |list| ==> Less(list[t], list[u])
      ensures forall k :: k in list <==> k in MangledKeys(contents, attr)
    {
      list := [];
      var i := 0;
      while i < |keys|
        invariant i <= |keys|
        invariant forall t, u :: 0 <= t < u < |list| ==> Less(list[t], list[u])
        invariant forall t :: 0 <= t < |list| ==> list[t] in keys[..i]
        invariant forall k :: k in list <==> k in keys[..i] && k in MangledKeys(contents, attr)
      {
        var k := keys[i];
        assert keys[..i + 1] == keys[..i] + [k];
        if MangleIndex(k) < |k| && Accepts(contents[k], attr) {
          forall t | 0 <= t < |list|
            ensures Less(list[t], k)
          {
            var j :| 0 <= j < i && keys[..i][j] == list[t];
            assert keys[j] == list[t];
          }
          list := list + [k];
        }
        i := i + 1;
      }
      assert keys[..i] == keys;
    }

    /** The second pass, for one mangled key: erased when its suffix is
        another tag, otherwise its value goes to its base name (assigned
        when the base exists, by re-keying the node otherwise). */
    method AlignOne(ghost m0: map<string, Item<P>>, ghost handled: set<string>, tag: string, mk: string)
      requires Valid() && IsAligned(m0, contents, handled, tag)
      requires mk in m0 && mk !in handled && MangleIndex(mk) < |mk|
      requires forall h :: h in handled ==> MangleIndex(h) < |h|
      modifies this
      ensures Valid() && IsAligned(m0, contents, handled + {mk}, tag)
    {
      var pos := MangleIndex(mk);
      var base := mk[..pos];
      var prof := mk[pos + 2..];
      if prof != tag {
        AlignErase(m0, contents, handled, tag, mk);
        Erase(mk);
      } else {
        AlignPromote(m0, contents, handled, tag, mk);
        var v := contents[mk];
        ghost var target := contents[base := v] - {mk};
        if base in contents {
          Put(base, v);
          Erase(mk);
        } else {
          Erase(mk);
          Put(base, v);
          assert contents == target;
        }
      }
    }

    /** The shared body of `AlignOnProfile` and `AlignOnOS`: every mangled
        key whose value passes the filter is handled by `AlignOne`. */
    method Align(attr: Option<AttrType>, tag: string)
      requires Valid()
      modifies this
      ensures Valid()
      ensures IsAligned(old(contents), contents, MangledKeys(old(contents), attr), tag)
    {
      ghost var m0 := contents;
      var list := MangledList(attr);
      var n := 0;
      ghost var handled: set<string> := {};
      while n < |list|
        invariant Valid() && n <= |list|
        invariant forall t :: 0 <= t < n ==> list[t] in handled
        invariant forall t :: n <= t < |list| ==> list[t] !in handled
        invariant handled <= MangledKeys(m0, attr)
        invariant IsAligned(m0, contents, handled, tag)
      {
        var mk := list[n];
        HandledStep(list, n, handled, MangledKeys(m0, attr));
        AlignOne(m0, handled, tag, mk);
        handled := handled + {mk};
        n := n + 1;
      }
      assert handled == MangledKeys(m0, attr) by {
        forall k | k in MangledKeys(m0, attr)
          ensures k in handled
        {
          var t :| 0 <= t < |list| && list[t] == k;
        }
      }
    }

    /** `AlignOnProfile(table, profile)`: realignment of the entries
        declared with `@profile`. */
    method AlignOnProfile(profile: string)
      requires Valid()
      modifies this
      ensures Valid()
      ensures IsAligned(old(contents), contents, MangledKeys(old(contents), Some(Profile)), profile)
    {
      Align(Some(Profile), profile);
    }

    /** `AlignOnOS(table)`: realignment of the entries declared with `@ifos`
        on the name of the running OS, given here as a parameter. */
    method AlignOnOS(os: string)
      requires Valid()
      modifies this
      ensures Valid()
      ensures IsAligned(old(contents), contents, MangledKeys(old(contents), Some(IfOs)), os)
    {
      Align(Some(IfOs), os);
    }
  }
}
