/** JSON values as abstract trees. */
module JsonValue {
  import opened Descriptors

  datatype Json = JNull | JLeaf(data: Bytes) | JArr(items: seq<Json>) | JObj(members: map<string, Json>)

  /** How deep a value nests. */
  ghost function Height(j: Json): (h: nat)
    ensures j.JArr? ==> forall i :: 0 <= i < |j.items| ==> Height(j.items[i]) < h
    ensures j.JObj? ==> forall k :: k in j.members ==> Height(j.members[k]) < h
    decreases j, 0
  {
    match j
    case JArr(items) => 1 + ItemsHeight(items)
    case JObj(members) => 1 + MembersHeight(j, members.Keys)
    case _ => 0
  }

  ghost function ItemsHeight(items: seq<Json>): (h: nat)
    ensures forall i :: 0 <= i < |items| ==> Height(items[i]) <= h
    ensures h > 0 ==> exists i :: 0 <= i < |items| && Height(items[i]) == h
    decreases items, 0
  {
    if items == [] then 0
    else
      var init := items[..|items| - 1];
      var below, last := ItemsHeight(init), Height(items[|items| - 1]);
      assert items == init + [items[|items| - 1]];
      if below <= last then last
      else
        assert exists i :: 0 <= i < |init| && Height(init[i]) == below;
        var i :| 0 <= i < |init| && Height(init[i]) == below;
        assert items[i] == init[i];
        below
  }

  ghost function MembersHeight(j: Json, keys: set<string>): (h: nat)
    requires j.JObj? && keys <= j.members.Keys
    ensures forall k :: k in keys ==> Height(j.members[k]) <= h
    ensures h > 0 ==> exists k :: k in keys && Height(j.members[k]) == h
    decreases j, 0, |keys|
  {
    if keys == {} then 0
    else
      var k :| k in keys;
      var below, here := MembersHeight(j, keys - {k}), Height(j.members[k]);
      if below <= here then here else below
  }

  lemma ArrayHeight(items: seq<Json>, n: nat)
    requires n > 0 && forall i :: 0 <= i < |items| ==> Height(items[i]) < n
    ensures Height(JArr(items)) <= n
  {
  }

  lemma ObjectHeight(members: map<string, Json>, n: nat)
    requires n > 0 && forall k :: k in members ==> Height(members[k]) < n
    ensures Height(JObj(members)) <= n
  {
  }
}
