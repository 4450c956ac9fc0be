/** HTTP header lists, and the object the workers change them through. */
module HeaderLists {

  /** One header; the name is in lower case, as the platform stores it. */
  datatype Header = Header(name: string, value: string)

  function Filter(list: seq<Header>, keep: string -> bool): (kept: seq<Header>)
    ensures |kept| <= |list| && forall h :: h in kept <==> h in list && keep(h.name)
  {
    if list == [] then []
    else if keep(list[0].name) then [list[0]] + Filter(list[1..], keep)
    else Filter(list[1..], keep)
  }

  function Values(list: seq<Header>, name: string): seq<string> {
    if list == [] then []
    else if list[0].name == name then [list[0].value] + Values(list[1..], name)
    else Values(list[1..], name)
  }

  predicate Has(list: seq<Header>, name: string) {
    exists i :: 0 <= i < |list| && list[i].name == name
  }

  function NoneOf(names: set<string>): string -> bool {
    name => name !in names
  }

  function Without(list: seq<Header>, name: string): seq<Header> {
    Filter(list, NoneOf({name}))
  }

  /** What set leaves: the value in the place of the first header of that name, or at the end. */
  function Put(list: seq<Header>, name: string, value: string): seq<Header> {
    if list == [] then [Header(name, value)]
    else if list[0].name == name then [Header(name, value)] + Without(list[1..], name)
    else [list[0]] + Put(list[1..], name, value)
  }

  lemma {:induction false} FilterTwice(list: seq<Header>, first: string -> bool, second: string -> bool, both: string -> bool)
    requires forall name :: both(name) <==> first(name) && second(name)
    ensures Filter(Filter(list, first), second) == Filter(list, both)
    decreases |list|
  {
    if list != [] {
      FilterTwice(list[1..], first, second, both);
      if first(list[0].name) {
        var kept := Filter(list, first);
        assert kept[1..] == Filter(list[1..], first) && kept[0] == list[0];
      }
    }
  }

  /** Deleting one name more. */
  lemma WithoutAlso(list: seq<Header>, names: set<string>, name: string)
    ensures Without(Filter(list, NoneOf(names)), name) == Filter(list, NoneOf(names + {name}))
  {
    FilterTwice(list, NoneOf(names), NoneOf({name}), NoneOf(names + {name}));
  }

  lemma {:induction false} FilterAgrees(list: seq<Header>, one: string -> bool, other: string -> bool)
    requires forall h :: h in list ==> one(h.name) == other(h.name)
    ensures Filter(list, one) == Filter(list, other)
    decreases |list|
  {
    if list != [] { FilterAgrees(list[1..], one, other); }
  }

  lemma FilterHead(list: seq<Header>, keep: string -> bool)
    requires list != []
    ensures Filter(list, keep) == (if keep(list[0].name) then [list[0]] else []) + Filter(list[1..], keep)
  {
  }

  lemma FilterNone(keep: string -> bool)
    ensures Filter([], keep) == []
  {
  }

  lemma {:induction false} FilterAppend(list: seq<Header>, more: seq<Header>, keep: string -> bool)
    ensures Filter(list + more, keep) == Filter(list, keep) + Filter(more, keep)
    decreases |list|
  {
    hide Filter;
    if list == [] {
      assert list + more == more;
      FilterNone(keep);
    } else {
      FilterAppend(list[1..], more, keep);
      assert (list + more)[0] == list[0] && (list + more)[1..] == list[1..] + more;
      FilterHead(list + more, keep);
      FilterHead(list, keep);
    }
  }

  lemma {:induction false} FilterAll(list: seq<Header>, keep: string -> bool)
    requires forall h :: h in list ==> keep(h.name)
    ensures Filter(list, keep) == list
    decreases |list|
  {
    if list != [] { FilterAll(list[1..], keep); }
  }

  lemma {:induction false} ValuesOfFilter(list: seq<Header>, keep: string -> bool, name: string)
    ensures Values(Filter(list, keep), name) == if keep(name) then Values(list, name) else []
    decreases |list|
  {
    if list != [] {
      ValuesOfFilter(list[1..], keep, name);
      if keep(list[0].name) {
        var kept := Filter(list, keep);
        assert kept[1..] == Filter(list[1..], keep) && kept[0] == list[0];
      }
    }
  }

  lemma {:induction false} ValuesAppend(list: seq<Header>, more: seq<Header>, name: string)
    ensures Values(list + more, name) == Values(list, name) + Values(more, name)
    decreases |list|
  {
    if list == [] {
      assert list + more == more;
    } else {
      ValuesAppend(list[1..], more, name);
      assert (list + more)[1..] == list[1..] + more;
    }
  }

  /** Setting a header leaves it that one value, and the others theirs. */
  lemma {:induction false} ValuesOfPut(list: seq<Header>, name: string, value: string, other: string)
    ensures Values(Put(list, name, value), other) == if other == name then [value] else Values(list, other)
    decreases |list|
  {
    if list != [] {
      var after := Put(list, name, value);
      if list[0].name == name {
        assert after[1..] == Without(list[1..], name);
        ValuesOfFilter(list[1..], NoneOf({name}), other);
      } else {
        ValuesOfPut(list[1..], name, value, other);
        assert after[1..] == Put(list[1..], name, value);
      }
    }
  }

  lemma {:induction false} NoValuesIffAbsent(list: seq<Header>, name: string)
    ensures Values(list, name) == [] <==> !Has(list, name)
    decreases |list|
  {
    if list != [] {
      NoValuesIffAbsent(list[1..], name);
      if Has(list[1..], name) {
        var i :| 0 <= i < |list[1..]| && list[1..][i].name == name;
        assert list[i + 1].name == name;
      }
      if Has(list, name) && list[0].name != name {
        var i :| 0 <= i < |list| && list[i].name == name;
        assert list[1..][i - 1].name == name;
      }
    }
  }

  /** The Headers object: a list changed in place. */
  class Headers {
    var list: seq<Header>

    constructor (source: seq<Header>)
      ensures list == source
    {
      list := source;
    }

    method Append(name: string, value: string)
      modifies this
      ensures list == old(list) + [Header(name, value)]
      ensures forall other :: Values(list, other) == Values(old(list), other) + if other == name then [value] else []
    {
      forall other ensures Values(list + [Header(name, value)], other) == Values(list, other) + if other == name then [value] else [] {
        ValuesAppend(list, [Header(name, value)], other);
      }
      list := list + [Header(name, value)];
    }

    method Delete(name: string)
      modifies this
      ensures list == Without(old(list), name)
      ensures forall other :: Values(list, other) == if other == name then [] else Values(old(list), other)
    {
      forall other ensures Values(Without(list, name), other) == if other == name then [] else Values(list, other) {
        ValuesOfFilter(list, NoneOf({name}), other);
      }
      list := Without(list, name);
    }

    method Set(name: string, value: string)
      modifies this
      ensures list == Put(old(list), name, value)
      ensures forall other :: Values(list, other) == if other == name then [value] else Values(old(list), other)
    {
      forall other ensures Values(Put(list, name, value), other) == if other == name then [value] else Values(list, other) {
        ValuesOfPut(list, name, value, other);
      }
      list := Put(list, name, value);
    }
  }
}
