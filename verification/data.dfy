/**
 * The registry of created test data: one list, newest first, that `Save`
 * extends at the front unless an element with the same identifier is
 * already there, with case-insensitive and type-filtered lookups.
 * Class.isInstance is modelled by the set of type names an element is an
 * instance of (its class and every supertype).
 */
module Data {
  import opened Wrappers
  import opened Text

  /** A type name, standing for a Class object. */
  type TypeName = string

  /** A BaseData: its identifier and the types it is an instance of. */
  datatype BaseData = BaseData(identifier: string, types: set<TypeName>)
  {
    predicate IsInstance(t: TypeName) {
      t in types
    }
  }

  /** Some element of `list` has exactly the identifier `id` (Objects.equals). */
  predicate HasIdentifier(list: seq<BaseData>, id: string) {
    exists i | 0 <= i < |list| :: list[i].identifier == id
  }

  /** No two elements share an identifier. */
  predicate UniqueIdentifiers(list: seq<BaseData>) {
    forall i, j | 0 <= i < j < |list| :: list[i].identifier != list[j].identifier
  }

  /**
   * The list after saving `data`: `data` in front when its identifier is
   * new, the same list otherwise.
   */
  function Saved(list: seq<BaseData>, data: BaseData): (r: seq<BaseData>)
    ensures HasIdentifier(list, data.identifier) ==> r == list
    ensures !HasIdentifier(list, data.identifier) ==> |r| == |list| + 1 && r[0] == data && r[1..] == list
    ensures HasIdentifier(r, data.identifier)
  {
    if HasIdentifier(list, data.identifier) then list
    else
      assert ([data] + list)[0] == data;
      [data] + list
  }

  /** Saving keeps the identifiers unique. */
  lemma SavePreservesUnique(list: seq<BaseData>, data: BaseData)
    requires UniqueIdentifiers(list)
    ensures UniqueIdentifiers(Saved(list, data))
  {
    var r := Saved(list, data);
    if !HasIdentifier(list, data.identifier) {
      forall i, j | 0 <= i < j < |r| ensures r[i].identifier != r[j].identifier {
        if i == 0 {
          assert r[j] == list[j - 1];
        } else {
          assert r[i] == list[i - 1] && r[j] == list[j - 1];
        }
      }
    }
  }

  /** The elements that are instances of `t`, in list order (getWithType). */
  function OfType(list: seq<BaseData>, t: TypeName): (r: seq<BaseData>)
    ensures |r| <= |list|
    ensures forall x | x in r :: x in list && x.IsInstance(t)
    ensures forall x | x in list && x.IsInstance(t) :: x in r
  {
    if list == [] then []
    else if list[0].IsInstance(t) then [list[0]] + OfType(list[1..], t)
    else OfType(list[1..], t)
  }

  /** Filtering distributes over concatenation, so it keeps the list's order. */
  lemma {:induction false} OfTypeAppend(a: seq<BaseData>, b: seq<BaseData>, t: TypeName)
    ensures OfType(a + b, t) == OfType(a, t) + OfType(b, t)
  {
    if a != [] {
      assert (a + b)[1..] == a[1..] + b;
      OfTypeAppend(a[1..], b, t);
    } else {
      assert a + b == b;
    }
  }

  /** The elements that are NOT instances of `t`, in list order (what clear(type) leaves). */
  function NotOfType(list: seq<BaseData>, t: TypeName): (r: seq<BaseData>)
    ensures |r| <= |list|
    ensures forall x | x in r :: x in list && !x.IsInstance(t)
    ensures forall x | x in list && !x.IsInstance(t) :: x in r
  {
    if list == [] then []
    else if list[0].IsInstance(t) then NotOfType(list[1..], t)
    else [list[0]] + NotOfType(list[1..], t)
  }

  /** Removing one more element: the filter grows by it exactly when it is kept. */
  lemma {:induction false} NotOfTypeSnoc(list: seq<BaseData>, x: BaseData, t: TypeName)
    ensures NotOfType(list + [x], t) == NotOfType(list, t) + (if x.IsInstance(t) then [] else [x])
  {
    if list != [] {
      assert (list + [x])[1..] == list[1..] + [x];
      NotOfTypeSnoc(list[1..], x, t);
    } else {
      assert NotOfType([x][1..], t) == [];
    }
  }

  /** The first element whose identifier equals `id` ignoring ASCII case. */
  function FirstWithId(list: seq<BaseData>, id: string): (r: Option<BaseData>)
    ensures r.None? <==> forall i | 0 <= i < |list| :: !EqualsIgnoreCase(list[i].identifier, id)
    ensures r.Some? ==> exists i | 0 <= i < |list| ::
      (list[i] == r.value
       && EqualsIgnoreCase(list[i].identifier, id)
       && forall j | 0 <= j < i :: !EqualsIgnoreCase(list[j].identifier, id))
  {
    if list == [] then None
    else if EqualsIgnoreCase(list[0].identifier, id) then Some(list[0])
    else
      var r := FirstWithId(list[1..], id);
      assert forall i | 1 <= i < |list| :: list[i] == list[1..][i - 1];
      r
  }

  /** Looking up an identifier in another letter case finds the same element. */
  lemma {:induction false} FirstWithIdIgnoresCase(list: seq<BaseData>, id: string, other: string)
    requires EqualsIgnoreCase(id, other)
    ensures FirstWithId(list, id) == FirstWithId(list, other)
  {
    if list != [] {
      var k := list[0].identifier;
      EqualsIgnoreCaseIsEquivalence(k, id, other);
      EqualsIgnoreCaseIsEquivalence(k, other, id);
      EqualsIgnoreCaseIsEquivalence(id, other, k);
      FirstWithIdIgnoresCase(list[1..], id, other);
    }
  }

  /** Clearing a type leaves no instance of it behind. */
  lemma ClearedHasNoInstances(list: seq<BaseData>, t: TypeName)
    ensures OfType(NotOfType(list, t), t) == []
  {
  }

  /**
   * Saving compares identifiers exactly but looking up ignores case: "A"
   * and then "a" are both kept, and a lookup of "A" finds the newer "a".
   */
  lemma CaseVariantsCoexist(types: set<TypeName>)
    ensures var list := Saved(Saved([], BaseData("A", types)), BaseData("a", types));
      && list == [BaseData("a", types), BaseData("A", types)]
      && FirstWithId(list, "A") == Some(BaseData("a", types))
  {
    var first := Saved([], BaseData("A", types));
    assert first == [BaseData("A", types)];
    assert !HasIdentifier(first, "a") by {
      assert first[0].identifier[0] != "a"[0];
    }
    var list := Saved(first, BaseData("a", types));
    assert EqualsIgnoreCase(list[0].identifier, "A") by {
      assert LowerAscii('A') == 'a';
    }
  }

  class DataManager {
    var createdDataList: seq<BaseData>

    constructor ()
      ensures createdDataList == []
    {
      createdDataList := [];
    }

    /** save: puts `data` at the front unless its identifier is already there. */
    method Save(data: BaseData)
      modifies this
      ensures createdDataList == Saved(old(createdDataList), data)
    {
      var canAdd := !HasIdentifier(createdDataList, data.identifier);
      if canAdd {
        createdDataList := [data] + createdDataList;
      }
    }

    /** clear(): forgets everything. */
    method Clear()
      modifies this
      ensures createdDataList == []
    {
      createdDataList := [];
    }

    /** clear(type), List.removeIf: drops exactly the instances of `t`, keeping the rest in order. */
    method ClearType(t: TypeName)
      modifies this
      ensures createdDataList == NotOfType(old(createdDataList), t)
    {
      var list := createdDataList;
      var kept: seq<BaseData> := [];
      for i := 0 to |list|
        invariant kept == NotOfType(list[..i], t)
      {
        NotOfTypeSnoc(list[..i], list[i], t);
        assert list[..i + 1] == list[..i] + [list[i]];
        if !list[i].IsInstance(t) {
          kept := kept + [list[i]];
        }
      }
      assert list[..|list|] == list;
      createdDataList := kept;
    }

    /** getWithType: the instances of `t`, newest first. */
    function GetWithType(t: TypeName): (r: seq<BaseData>)
      reads this
      ensures r == OfType(createdDataList, t)
    {
      OfType(createdDataList, t)
    }

    /** getFirst: the most recently saved instance of `t`, if any. */
    function GetFirst(t: TypeName): (r: Option<BaseData>)
      reads this
      ensures r.None? <==> forall x | x in createdDataList :: !x.IsInstance(t)
      ensures r.Some? ==> r.value in createdDataList && r.value.IsInstance(t)
      ensures r.Some? ==> r.value == OfType(createdDataList, t)[0]
    {
      var all := OfType(createdDataList, t);
      if all == [] then None
      else
        assert all[0] in all;
        Some(all[0])
    }

    /** getWithId(id): the most recently saved element whose identifier matches `id` ignoring case. */
    function GetWithId(id: string): (r: Option<BaseData>)
      reads this
      ensures r == FirstWithId(createdDataList, id)
    {
      FirstWithId(createdDataList, id)
    }

    /** getWithId(type, id): the first instance of `t` whose identifier matches `id` ignoring case. */
    function GetWithIdOfType(t: TypeName, id: string): (r: Option<BaseData>)
      reads this
      ensures r == FirstWithId(OfType(createdDataList, t), id)
      ensures r.Some? ==> r.value in createdDataList && r.value.IsInstance(t)
    {
      FirstWithId(OfType(createdDataList, t), id)
    }
  }
}
