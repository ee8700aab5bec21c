/** `load_block_list` of crawler_src/crawl.py over the parsed contents of
    `services.json` (the reading and parsing of the file are not modelled):
    the values of the `Email` category, flattened. */
module BlockList {
  import opened Base

  /** A JSON value: objects keep their members in file order. `json.load`
      gives each key of an object once, keeping the last value written;
      `Lookup` resolves a repeated key that way, while `Items` and `Iterate`
      list the members as given, so they match `json.load` on objects whose
      keys are distinct. */
  datatype Json =
    | JNull
    | JBool(b: bool)
    | JNumber(r: real)
    | JString(s: string)
    | JArray(items: seq<Json>)
    | JObject(members: seq<Member>)

  datatype Member = Member(key: string, value: Json)

  /** The value an object gives a key; `json.load` keeps the last one
      written. */
  function Lookup(members: seq<Member>, key: string): (r: Option<Json>)
    ensures r.Some? <==> exists k :: 0 <= k < |members| && members[k].key == key
    ensures r.Some? ==> Member(key, r.value) in members
    decreases |members|
  {
    if |members| == 0 then None
    else if members[|members| - 1].key == key then Some(members[|members| - 1].value)
    else
      var front := members[..|members| - 1];
      assert forall k :: 0 <= k < |front| ==> front[k] == members[k];
      Lookup(front, key)
  }

  /** Python's `j[key]` with a string key: KeyError on an object without
      it, TypeError on anything that is not an object. */
  function Index(j: Json, key: string): (r: Outcome<Json>)
    ensures r.Success? ==> j.JObject? && Member(key, r.value) in j.members
    ensures r.Failure? ==> r.error == (if j.JObject? then KeyError else TypeError)
  {
    match j
    case JObject(members) =>
      (match Lookup(members, key)
       case None => Failure(KeyError)
       case Some(v) => Success(v))
    case _ => Failure(TypeError)
  }

  /** What `for x in j` yields: the items of a list, the keys of an object,
      the characters of a string; other values are not iterable. */
  function Iterate(j: Json): (r: Outcome<seq<Json>>)
    ensures r.Failure? <==> !(j.JArray? || j.JObject? || j.JString?)
    ensures j.JArray? ==> r == Success(j.items)
    ensures r.Success? && !j.JArray? ==> forall k :: 0 <= k < |r.value| ==> r.value[k].JString?
  {
    match j
    case JArray(items) => Success(items)
    case JObject(members) => Success(seq(|members|, k requires 0 <= k < |members| => JString(members[k].key)))
    case JString(s) => Success(seq(|s|, k requires 0 <= k < |s| => JString([s[k]])))
    case _ => Failure(TypeError)
  }

  /** Python's `j.items()`: the members of an object; AttributeError on
      anything else. */
  function Items(j: Json): (r: Outcome<seq<Member>>)
    ensures r.Success? <==> j.JObject?
    ensures r.Failure? ==> r.error == AttributeError
  {
    if j.JObject? then Success(j.members) else Failure(AttributeError)
  }

  /** `for inner_key, domain in value.items(): if isinstance(domain, list):
      block_list.extend(domain)`: the list-valued members, concatenated. */
  function ListsIn(members: seq<Member>): seq<Json>
    decreases |members|
  {
    if |members| == 0 then []
    else
      var last := members[|members| - 1].value;
      ListsIn(members[..|members| - 1]) + (if last.JArray? then last.items else [])
  }

  /** `for key, value in category.items(): if isinstance(value, dict): ...`:
      the lists inside the dict-valued members, concatenated. */
  function DictsIn(members: seq<Member>): seq<Json>
    decreases |members|
  {
    if |members| == 0 then []
    else
      var last := members[|members| - 1].value;
      DictsIn(members[..|members| - 1]) + (if last.JObject? then ListsIn(last.members) else [])
  }

  /** What one element of the `Email` category contributes. */
  function CategoryDomains(category: Json): Outcome<seq<Json>> {
    match Items(category)
    case Failure(e) => Failure(e)
    case Success(members) => Success(DictsIn(members))
  }

  /** The block list `load_block_list` returns for the parsed file: the
      elements of the `Email` category in turn, the first exception
      escaping. */
  function EmailBlockList(data: Json): Outcome<seq<Json>> {
    var categories :- Index(data, "categories");
    var email :- Index(categories, "Email");
    var entries :- Iterate(email);
    FlatMap(entries, CategoryDomains)
  }

  /** `load_block_list`, with its nested loops. */
  method LoadBlockList(data: Json) returns (r: Outcome<seq<Json>>)
    ensures r == EmailBlockList(data)
  {
    var categories := Index(data, "categories");
    if categories.Failure? {
      return Failure(categories.error);
    }
    var email := Index(categories.value, "Email");
    if email.Failure? {
      return Failure(email.error);
    }
    var entries := Iterate(email.value);
    if entries.Failure? {
      return Failure(entries.error);
    }
    var blockList: seq<Json> := [];
    for c := 0 to |entries.value|
      invariant FlatMap(entries.value[..c], CategoryDomains) == Success(blockList)
    {
      FlatMapStep(entries.value, CategoryDomains, c);
      var category := entries.value[c];
      var items := Items(category);
      if items.Failure? {
        FlatMapFailurePersists(entries.value, CategoryDomains, c + 1);
        return Failure(items.error);
      }
      var found := ExtendFromCategory(items.value);
      blockList := blockList + found;
    }
    assert entries.value[..|entries.value|] == entries.value;
    r := Success(blockList);
  }

  /** The two inner loops of `load_block_list` over one category's members. */
  method ExtendFromCategory(members: seq<Member>) returns (found: seq<Json>)
    ensures found == DictsIn(members)
  {
    found := [];
    for m := 0 to |members|
      invariant found == DictsIn(members[..m])
    {
      assert members[..m + 1][..m] == members[..m];
      var value := members[m].value;
      if value.JObject? {
        ghost var before := found;
        for n := 0 to |value.members|
          invariant found == before + ListsIn(value.members[..n])
        {
          assert value.members[..n + 1][..n] == value.members[..n];
          var domain := value.members[n].value;
          if domain.JArray? {
            found := found + domain.items;
          }
        }
        assert value.members[..|value.members|] == value.members;
      }
    }
    assert members[..|members|] == members;
  }

  /** The lists of a concatenation of members are concatenated: nothing is
      merged or removed, so duplicates are kept. */
  lemma {:induction false} ListsInAppend(a: seq<Member>, b: seq<Member>)
    ensures ListsIn(a + b) == ListsIn(a) + ListsIn(b)
    decreases |b|
  {
    if |b| == 0 {
      assert a + b == a;
    } else {
      assert (a + b)[..|a + b| - 1] == a + b[..|b| - 1];
      ListsInAppend(a, b[..|b| - 1]);
    }
  }

  /** A domain listed by two services of a company is on the block list
      twice: `extend` does not remove duplicates. */
  lemma DuplicatesKept(service1: string, service2: string, d: string)
    requires service1 != service2
    ensures ListsIn([Member(service1, JArray([JString(d)])), Member(service2, JArray([JString(d)]))]) == [JString(d), JString(d)]
  {
    var m1, m2 := Member(service1, JArray([JString(d)])), Member(service2, JArray([JString(d)]));
    ListsInAppend([m1], [m2]);
    assert [m1] + [m2] == [m1, m2];
  }

  /** The values in `ListsIn` are exactly the items of list-valued members. */
  lemma {:induction false} ListsInMembers(members: seq<Member>)
    ensures forall y :: y in ListsIn(members) <==>
      exists k :: 0 <= k < |members| && members[k].value.JArray? && y in members[k].value.items
    decreases |members|
  {
    if |members| > 0 {
      var front := members[..|members| - 1];
      ListsInMembers(front);
      assert forall k :: 0 <= k < |front| ==> front[k] == members[k];
    }
  }

  /** The values in `DictsIn` are exactly the items of the lists inside
      dict-valued members. */
  lemma {:induction false} DictsInMembers(members: seq<Member>)
    ensures forall y :: y in DictsIn(members) <==>
      exists k :: 0 <= k < |members| && members[k].value.JObject? && y in ListsIn(members[k].value.members)
    decreases |members|
  {
    if |members| > 0 {
      var front := members[..|members| - 1];
      DictsInMembers(front);
      assert forall k :: 0 <= k < |front| ==> front[k] == members[k];
    }
  }

  /** A category added next to `Email` in the `categories` object is not
      read. */
  lemma OnlyEmailRead(categories: seq<Member>, other: Member, rest: seq<Member>)
    requires other.key != "Email"
    ensures EmailBlockList(JObject(rest + [Member("categories", JObject(categories + [other]))])) ==
            EmailBlockList(JObject(rest + [Member("categories", JObject(categories))]))
  {
    assert (categories + [other])[..|categories|] == categories;
  }

  /** When the file has the expected shape, the block list holds exactly
      the items of the lists found one level inside the dict-valued members
      of the `Email` entries; it fails when an entry is not a dict. */
  lemma BlockListMembers(data: Json, entries: seq<Json>)
    requires Index(data, "categories").Success?
    requires Index(Index(data, "categories").value, "Email") == Success(JArray(entries))
    ensures EmailBlockList(data).Success? <==> forall c :: 0 <= c < |entries| ==> entries[c].JObject?
    ensures EmailBlockList(data).Success? ==>
      forall y :: y in EmailBlockList(data).value <==>
        exists c, k :: 0 <= c < |entries| && 0 <= k < |entries[c].members| &&
          entries[c].members[k].value.JObject? && y in ListsIn(entries[c].members[k].value.members)
  {
    FlatMapSuccess(entries, CategoryDomains);
    forall c | 0 <= c < |entries| && entries[c].JObject? {
      DictsInMembers(entries[c].members);
    }
  }
}
