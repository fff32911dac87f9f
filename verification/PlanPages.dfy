/** Paging through a persisted cleanup plan. */
module PlanPages {
  import opened Common
  import opened Json

  const MAX_CLEAN_PLAN_PAGE_ITEMS: nat := 1000
  const CLEAN_PLAN_PAGE_ITEMS_BUDGET: nat := 786_432
  const MAX_CLEAN_PLAN_IDENTITY_BYTES: nat := 65_536
  const MAX_CLEAN_PLAN_ITEMS: nat := 200_000
  const MAX_CLEAN_PLAN_BYTES: nat := 64 * 1024 * 1024

  /** The fields of one authorization. */
  type Identity = seq<Member>

  datatype Plan = Plan(jobs: seq<Identity>, managedResults: seq<Identity>)

  datatype Kind = JobItem | ManagedResult

  datatype PageItem = PageItem(index: nat, kind: Kind, identity: Identity)

  datatype Page = Page(offset: nat, limit: nat, total: nat, items: seq<PageItem>, nextOffset: Option<nat>)

  datatype Result = Ok(page: Page) | BadOffset | BadLimit | IdentityTooLarge

  function Total(plan: Plan): nat {
    |plan.jobs| + |plan.managedResults|
  }

  /** The immutable sequence: all jobs, then all managed results, in persisted order. */
  function ItemAt(plan: Plan, i: nat): PageItem
    requires i < Total(plan)
  {
    if i < |plan.jobs| then PageItem(i, JobItem, plan.jobs[i])
    else PageItem(i, ManagedResult, plan.managedResults[i - |plan.jobs|])
  }

  function AllItems(plan: Plan): (r: seq<PageItem>)
    ensures |r| == Total(plan)
    ensures forall i | 0 <= i < |r| :: r[i] == ItemAt(plan, i)
  {
    seq(Total(plan), i requires 0 <= i < Total(plan) => ItemAt(plan, i))
  }

  /** One item on the wire; the order of the members does not matter for its length. */
  function ItemJson(item: PageItem): Json {
    Obj([Member("index", Int(item.index)),
         Member("kind", Str(if item.kind.JobItem? then "job" else "managed_result"))] + item.identity)
  }

  function ItemSize(item: PageItem): nat {
    |Render(ItemJson(item))|
  }

  /** An item's bytes are those of its identity, its index and its kind, whatever order the
      members come in. */
  lemma ItemBytes(item: PageItem)
    ensures ItemSize(item) == 18 + |Decimal(item.index)| + (if item.kind.JobItem? then 5 else 16)
                              + (if item.identity == [] then 0 else |Render(Obj(item.identity))| - 1)
  {
    var index := Member("index", Int(item.index));
    var kind := Member("kind", Str(if item.kind.JobItem? then "job" else "managed_result"));
    TwoThenMore(index, kind, item.identity);
    IndexBytes(item.index);
    KindBytes(item.kind);
    hide Render, RenderMember, RenderMembers;
    assert ItemJson(item) == Obj([index, kind] + item.identity);
    ObjectBytes([index, kind] + item.identity);
    ObjectBytes(item.identity);
  }

  lemma ObjectBytes(members: seq<Member>)
    ensures |Render(Obj(members))| == 2 + |RenderMembers(members)|
  {
    hide RenderMembers;
  }

  lemma TwoThenMore(a: Member, b: Member, rest: seq<Member>)
    ensures |RenderMembers([a, b] + rest)|
            == |RenderMember(a)| + 1 + |RenderMember(b)| + if rest == [] then 0 else 1 + |RenderMembers(rest)|
  {
    hide RenderMember;
    assert ([a, b] + rest)[1..] == [b] + rest && ([b] + rest)[1..] == rest;
    assert RenderMembers([b] + rest) == RenderMember(b) + if rest == [] then "" else "," + RenderMembers(rest);
  }

  lemma IndexBytes(index: nat)
    ensures |RenderMember(Member("index", Int(index)))| == 8 + |Decimal(index)|
  {
    UnescapedIsKept("index");
    hide Escaped, Decimal;
  }

  lemma TextMemberBytes(key: string, text: string)
    requires Unescaped(key) && Unescaped(text)
    ensures |RenderMember(Member(key, Str(text)))| == |key| + |text| + 5
  {
    UnescapedIsKept(key);
    UnescapedIsKept(text);
    hide Escaped, Unescaped;
  }

  lemma KindBytes(kind: Kind)
    ensures |RenderMember(Member("kind", Str(if kind.JobItem? then "job" else "managed_result")))|
            == 7 + if kind.JobItem? then 5 else 16
  {
    hide RenderMember, Escaped;
    TextMemberBytes("kind", if kind.JobItem? then "job" else "managed_result");
  }

  /** `_require_pageable_plan_identities`, as creating and loading a plan demand it. */
  ghost predicate Pageable(plan: Plan) {
    forall i | 0 <= i < Total(plan) :: ItemSize(ItemAt(plan, i)) <= MAX_CLEAN_PLAN_IDENTITY_BYTES
  }

  function ItemsJson(items: seq<PageItem>): (r: seq<Json>)
    ensures |r| == |items| && forall i | 0 <= i < |items| :: r[i] == ItemJson(items[i])
  {
    seq(|items|, i requires 0 <= i < |items| => ItemJson(items[i]))
  }

  /** The bytes of a page's item list. */
  function PageSize(items: seq<PageItem>): nat {
    |Render(Arr(ItemsJson(items)))|
  }

  lemma {:induction false} ItemsTextAppend(items: seq<Json>, j: Json)
    ensures |RenderItems(items + [j])| == |RenderItems(items)| + |Render(j)| + if items == [] then 0 else 1
  {
    if items == [] {
      assert items + [j] == [j];
    } else {
      assert (items + [j])[1..] == items[1..] + [j];
      ItemsTextAppend(items[1..], j);
    }
  }

  /** One more item adds its own size and a comma. */
  lemma PageSizeAppend(items: seq<PageItem>, item: PageItem)
    ensures PageSize(items + [item]) == PageSize(items) + ItemSize(item) + if items == [] then 0 else 1
  {
    assert ItemsJson(items + [item]) == ItemsJson(items) + [ItemJson(item)];
    ItemsTextAppend(ItemsJson(items), ItemJson(item));
  }

  lemma EmptyPage()
    ensures PageSize([]) == 2
  {
    assert ItemsJson([]) == [];
  }

  /** `_require_pageable_plan_identities`. */
  method RequirePageable(plan: Plan) returns (ok: bool)
    ensures ok <==> Pageable(plan)
  {
    for i := 0 to Total(plan)
      invariant forall k | 0 <= k < i :: ItemSize(ItemAt(plan, k)) <= MAX_CLEAN_PLAN_IDENTITY_BYTES
    {
      if ItemSize(ItemAt(plan, i)) > MAX_CLEAN_PLAN_IDENTITY_BYTES {
        return false;
      }
    }
    return true;
  }

  ghost predicate Distinct<T>(s: seq<T>) {
    forall i, k | 0 <= i < k < |s| :: s[i] != s[k]
  }

  /** Does nothing repeat? */
  method HasNoRepeat<T(==)>(s: seq<T>) returns (ok: bool)
    ensures ok <==> Distinct(s)
  {
    var seen: set<T> := {};
    for i := 0 to |s|
      invariant forall x :: x in seen <==> x in s[..i]
      invariant Distinct(s[..i])
    {
      if s[i] in seen {
        return false;
      }
      seen := seen + {s[i]};
      assert s[..i + 1] == s[..i] + [s[i]];
    }
    assert s[..|s|] == s;
    return true;
  }

  /** The jobs' ids. */
  function Ids(jobs: seq<Identity>, idOf: Identity -> string): (r: seq<string>)
    ensures |r| == |jobs| && forall i | 0 <= i < |r| :: r[i] == idOf(jobs[i])
  {
    seq(|jobs|, i requires 0 <= i < |jobs| => idOf(jobs[i]))
  }

  /** `create_clean_plan`: what is created repeats no job and no managed result, can be
      paged, and fits the document limit. */
  method CreatePlan(jobs: seq<Identity>, managedResults: seq<Identity>, idOf: Identity -> string, documentBytes: Plan -> nat)
    returns (plan: Option<Plan>)
    ensures plan.Some? <==>
              && |jobs| + |managedResults| <= MAX_CLEAN_PLAN_ITEMS && Pageable(Plan(jobs, managedResults))
              && Distinct(Ids(jobs, idOf)) && Distinct(managedResults)
              && documentBytes(Plan(jobs, managedResults)) <= MAX_CLEAN_PLAN_BYTES
    ensures plan.Some? ==> plan.value == Plan(jobs, managedResults)
  {
    if |jobs| > MAX_CLEAN_PLAN_ITEMS {
      return None;
    }
    var distinctJobs := HasNoRepeat(Ids(jobs, idOf));
    if !distinctJobs {
      return None;
    }
    var distinctResults := HasNoRepeat(managedResults);
    if !distinctResults || |jobs| + |managedResults| > MAX_CLEAN_PLAN_ITEMS {
      return None;
    }
    var created := Plan(jobs, managedResults);
    var ok := RequirePageable(created);
    return if ok && documentBytes(created) <= MAX_CLEAN_PLAN_BYTES then Some(created) else None;
  }

  /** A page holds the next items, as many as the limit and the byte budget allow. */
  ghost predicate IsPage(plan: Plan, page: Page) {
    && page.total == Total(plan)
    && page.offset + |page.items| <= page.total && |page.items| <= page.limit
    && page.items == AllItems(plan)[page.offset..page.offset + |page.items|]
    && PageSize(page.items) <= CLEAN_PLAN_PAGE_ITEMS_BUDGET
    && (|page.items| < page.limit && page.offset + |page.items| < page.total ==>
          PageSize(page.items + [ItemAt(plan, page.offset + |page.items|)]) > CLEAN_PLAN_PAGE_ITEMS_BUDGET)
    && page.nextOffset == if page.offset + |page.items| < page.total then Some(page.offset + |page.items|) else None
  }

  /** `clean_plan_page`. An item too large for any page is met only in a plan that creation
      and loading refuse. */
  method CleanPlanPage(plan: Plan, offset: int, limit: int) returns (r: Result)
    ensures r.BadOffset? <==> offset < 0 || (1 <= limit <= MAX_CLEAN_PLAN_PAGE_ITEMS && offset > Total(plan))
    ensures r.BadLimit? <==> offset >= 0 && !(1 <= limit <= MAX_CLEAN_PLAN_PAGE_ITEMS)
    ensures r.Ok? ==> IsPage(plan, r.page) && r.page.offset == offset && r.page.limit == limit
    ensures r.Ok? && offset < Total(plan) ==> r.page.items != []
    ensures Pageable(plan) ==> !r.IdentityTooLarge?
    ensures r.IdentityTooLarge? <==>
              0 <= offset < Total(plan) && 1 <= limit <= MAX_CLEAN_PLAN_PAGE_ITEMS
              && PageSize([ItemAt(plan, offset)]) > CLEAN_PLAN_PAGE_ITEMS_BUDGET
  {
    hide ItemSize, PageSize;
    if offset < 0 {
      return BadOffset;
    }
    if limit < 1 || limit > MAX_CLEAN_PLAN_PAGE_ITEMS {
      return BadLimit;
    }
    var total := Total(plan);
    if offset > total {
      return BadOffset;
    }
    EmptyPage();
    var items: seq<PageItem> := [];
    var encodedBytes := 2;
    var stop := Min(total, offset + limit);
    var index: nat := offset;
    while index < stop
      invariant offset <= index <= stop
      invariant items == AllItems(plan)[offset..index]
      invariant encodedBytes == PageSize(items) <= CLEAN_PLAN_PAGE_ITEMS_BUDGET
      invariant index > offset ==> PageSize([ItemAt(plan, offset)]) <= CLEAN_PLAN_PAGE_ITEMS_BUDGET
    {
      var item := ItemAt(plan, index);
      PageSizeAppend(items, item);
      var itemBytes := ItemSize(item) + if items == [] then 0 else 1;
      if encodedBytes + itemBytes > CLEAN_PLAN_PAGE_ITEMS_BUDGET {
        if items == [] {
          assert [] + [item] == [item];
          return IdentityTooLarge;
        }
        break;
      }
      assert items == [] ==> items + [item] == [item];
      items := items + [item];
      encodedBytes := encodedBytes + itemBytes;
      index := index + 1;
    }
    var consumed := offset + |items|;
    return Ok(Page(offset, limit, total, items, if consumed < total then Some(consumed) else None));
  }

  /** Following next_offset from zero, with any limits, ends and yields every job and then
      every managed result exactly once, in persisted order. */
  method Enumerate(plan: Plan, limit: nat -> nat) returns (items: seq<PageItem>)
    requires Pageable(plan)
    requires forall i :: 1 <= limit(i) <= MAX_CLEAN_PLAN_PAGE_ITEMS
    ensures items == AllItems(plan)
    ensures |items| == |plan.jobs| + |plan.managedResults|
    ensures forall i | 0 <= i < |plan.jobs| :: items[i] == PageItem(i, JobItem, plan.jobs[i])
    ensures forall i | 0 <= i < |plan.managedResults| ::
              items[|plan.jobs| + i] == PageItem(|plan.jobs| + i, ManagedResult, plan.managedResults[i])
  {
    items := [];
    var next: Option<nat> := Some(0);
    while next.Some?
      invariant |items| <= Total(plan) && items == AllItems(plan)[..|items|]
      invariant if next.Some? then next.value == |items| else |items| == Total(plan)
      decreases if next.Some? then 1 + Total(plan) - |items| else 0
    {
      var r := CleanPlanPage(plan, next.value, limit(next.value));
      var page := r.page;
      ghost var before := |items|;
      items := items + page.items;
      assert items == AllItems(plan)[..before + |page.items|];
      next := page.nextOffset;
    }
  }
}
