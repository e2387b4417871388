/** The query of the scanlation-group search, built from its options, and the group request paths. */
module ScanlationGroup {
  import opened Wrappers
  import opened Format

  const GroupList := "/group"
  const GroupGetPrefix := "/group/"

  /** The request path for one group: `GroupGet` with the id in place of its `%s`. */
  function GroupGet(id: string): (p: string)
    ensures GroupGetPrefix <= p && p[|GroupGetPrefix|..] == id
    ensures p != GroupList
  {
    GroupGetPrefix + id
  }

  lemma GroupGetInjective(a: string, b: string)
    requires GroupGet(a) == GroupGet(b)
    ensures a == b
  {
    assert a == GroupGet(a)[|GroupGetPrefix|..];
  }

  /** The sort order option; each entry is "asc" or "desc" on the wire. */
  datatype GetOrder = GetOrder(createdAt: string, updatedAt: string, name: string, followedCount: string, relevance: string)

  datatype ScanlationGroupListOptions = ScanlationGroupListOptions(
    limit: int,
    offset: int,
    ids: seq<string>,
    name: string,
    focusedLanguage: string,
    includes: seq<string>,
    order: Option<GetOrder>)

  /** The query `List` sends, stated key by key: an independent description of what the code builds. */
  function ListQuery(o: ScanlationGroupListOptions): Query
  {
    var language: Query := if o.focusedLanguage != "" then map["focusedLanguage" := [o.focusedLanguage]] else map[];
    var withName := if o.name != "" then language["name" := [o.name]] else language;
    var counts := withName["limit" := [DecimalText(o.limit)]]["offset" := [DecimalText(o.offset)]];
    var withIds := if o.ids != [] then counts["ids[]" := o.ids] else counts;
    if o.includes != [] then withIds["includes[]" := o.includes] else withIds
  }

  /** The query construction of `ScanlationGroupService.List`, adding parameter by parameter. */
  method BuildListQuery(options: ScanlationGroupListOptions) returns (q: Query)
    ensures q == ListQuery(options)
  {
    q := map[];
    if options.focusedLanguage != "" {
      AddNew(q, "focusedLanguage", options.focusedLanguage);
      q := Add(q, "focusedLanguage", options.focusedLanguage);
    }
    if options.name != "" {
      AddNew(q, "name", options.name);
      q := Add(q, "name", options.name);
    }
    AddNew(q, "limit", DecimalText(options.limit));
    q := Add(q, "limit", DecimalText(options.limit));
    AddNew(q, "offset", DecimalText(options.offset));
    q := Add(q, "offset", DecimalText(options.offset));
    q := AddEach(q, "ids[]", options.ids);
    q := AddEach(q, "includes[]", options.includes);
    if options.order.Some? {
      // The order option is accepted but not sent.
    }
  }

  /** A `for` loop adding each value under one key that the query does not hold yet. */
  method AddEach(q: Query, key: string, values: seq<string>) returns (r: Query)
    requires key !in q
    ensures r == if values == [] then q else q[key := values]
  {
    r := q;
    var i := 0;
    while i < |values|
      invariant 0 <= i <= |values|
      invariant r == if i == 0 then q else q[key := values[..i]]
    {
      r := Add(r, key, values[i]);
      assert values[..i + 1] == values[..i] + [values[i]];
      i := i + 1;
    }
    assert values[..i] == values;
  }

  /** Which keys the query holds, and the value of each. */
  lemma ListQueryContents(o: ScanlationGroupListOptions)
    ensures "focusedLanguage" in ListQuery(o) <==> o.focusedLanguage != ""
    ensures "focusedLanguage" in ListQuery(o) ==> ListQuery(o)["focusedLanguage"] == [o.focusedLanguage]
    ensures "name" in ListQuery(o) <==> o.name != ""
    ensures "name" in ListQuery(o) ==> ListQuery(o)["name"] == [o.name]
    ensures "ids[]" in ListQuery(o) <==> o.ids != []
    ensures "ids[]" in ListQuery(o) ==> ListQuery(o)["ids[]"] == o.ids
    ensures "includes[]" in ListQuery(o) <==> o.includes != []
    ensures "includes[]" in ListQuery(o) ==> ListQuery(o)["includes[]"] == o.includes
    ensures "order" !in ListQuery(o)
    ensures ListQuery(o).Keys <= {"focusedLanguage", "name", "limit", "offset", "ids[]", "includes[]"}
  {
  }

  /** `limit` and `offset` are always sent, each once, as the decimal text of the integers given. */
  lemma CountsReadBack(o: ScanlationGroupListOptions)
    ensures "limit" in ListQuery(o) && |ListQuery(o)["limit"]| == 1
    ensures "offset" in ListQuery(o) && |ListQuery(o)["offset"]| == 1
    ensures ListQuery(o)["limit"][0] == DecimalText(o.limit)
    ensures ListQuery(o)["offset"][0] == DecimalText(o.offset)
  {
  }

  /** The order option has no effect on the query. */
  lemma OrderIgnored(o: ScanlationGroupListOptions, order: Option<GetOrder>)
    ensures ListQuery(o.(order := order)) == ListQuery(o)
  {
  }
}
