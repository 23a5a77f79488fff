/** The tenant table and `TenantService`: `create` and `update` write the
    table; `getAll` filters it by a case-insensitive search term, orders the
    matches by id, newest first, and returns one page of them together with
    the number of matches. */
module Tenants {
  import opened Common
  import opened Strings

  /** A row of the tenant table; times are milliseconds since the epoch. */
  datatype Tenant = Tenant(id: nat, name: string, address: string, createdAt: nat, updatedAt: nat)

  datatype TenantData = TenantData(name: string, address: string)

  /** The validated list query: optional search term, 1-based page number
      and page size. */
  datatype TenantQuery = TenantQuery(q: Option<string>, currentPage: int, perPage: int)

  /** `getManyAndCount`: the page of rows and the total number of matches. */
  datatype TenantList = TenantList(rows: seq<Tenant>, count: nat)

  predicate DistinctIds(s: seq<Tenant>) {
    forall i, j :: 0 <= i < j < |s| ==> s[i].id != s[j].id
  }

  predicate StrictlyDescending(s: seq<Tenant>) {
    forall i, j :: 0 <= i < j < |s| ==> s[i].id > s[j].id
  }

  /** The search term is truthy: present and not empty. */
  predicate HasSearch(q: Option<string>) {
    q.Some? && q.value != ""
  }

  /** `CONCAT(name, ' ', address) ILIKE '%q%'`, or every tenant without a search term. */
  predicate TenantMatches(t: Tenant, q: Option<string>) {
    !HasSearch(q) || Contains(Lower(t.name + " " + t.address), Lower(q.value))
  }

  /** The `where` clause: the matching rows, in table order. */
  function Filter(s: seq<Tenant>, q: Option<string>): (r: seq<Tenant>)
    ensures forall t :: t in r <==> t in s && TenantMatches(t, q)
    ensures DistinctIds(s) ==> DistinctIds(r)
    ensures |r| <= |s|
  {
    if s == [] then []
    else
      var rest := Filter(s[1..], q);
      assert forall t :: t in rest ==> t in s[1..];
      if TenantMatches(s[0], q) then
        assert DistinctIds(s) ==> forall t :: t in rest ==> t.id != s[0].id;
        [s[0]] + rest
      else rest
  }

  /** Every entry of a list ordered newest first is at most as new as its head. */
  lemma HeadIsNewest(s: seq<Tenant>)
    requires StrictlyDescending(s) && s != []
    ensures forall i :: 0 < i < |s| ==> s[i].id < s[0].id
  {
  }

  lemma ConsDescending(x: Tenant, s: seq<Tenant>)
    requires StrictlyDescending(s)
    requires forall i :: 0 <= i < |s| ==> s[i].id < x.id
    ensures StrictlyDescending([x] + s)
  {
    var r := [x] + s;
    forall i, j | 0 <= i < j < |r| ensures r[i].id > r[j].id {
      assert r[j] == s[j - 1];
      if i > 0 {
        assert r[i] == s[i - 1];
      }
    }
  }

  /** In a list ordered newest first, everything after the head is older. */
  lemma TailEntryOlder(s: seq<Tenant>, x: Tenant)
    requires StrictlyDescending(s) && s != [] && x in multiset(s[1..])
    ensures x.id < s[0].id
  {
    var k :| 0 <= k < |s[1..]| && s[1..][k] == x;
    assert s[k + 1] == x;
  }

  lemma TailEntryDistinct(s: seq<Tenant>, x: Tenant)
    requires DistinctIds(s) && s != [] && x in multiset(s[1..])
    ensures x.id != s[0].id
  {
    var k :| 0 <= k < |s[1..]| && s[1..][k] == x;
    assert s[k + 1] == x;
  }

  /** A reordering of the tail of a list with distinct ids avoids the head's
      id, and together with the head it is the whole list again. */
  lemma HeadNotInSortedTail(s: seq<Tenant>, rest: seq<Tenant>)
    requires DistinctIds(s) && s != [] && multiset(rest) == multiset(s[1..])
    ensures forall i :: 0 <= i < |rest| ==> rest[i].id != s[0].id
    ensures multiset(rest) + multiset{s[0]} == multiset(s)
  {
    forall i | 0 <= i < |rest| ensures rest[i].id != s[0].id {
      assert rest[i] in multiset(rest);
      TailEntryDistinct(s, rest[i]);
    }
    assert s == [s[0]] + s[1..];
  }

  lemma DistinctTail(s: seq<Tenant>)
    requires DistinctIds(s) && s != []
    ensures DistinctIds(s[1..])
  {
    forall i, j | 0 <= i < j < |s[1..]| ensures s[1..][i].id != s[1..][j].id {
      assert s[1..][i] == s[i + 1] && s[1..][j] == s[j + 1];
    }
  }

  /** Places `t` into a list ordered by id, newest first. */
  function Insert(t: Tenant, s: seq<Tenant>): (r: seq<Tenant>)
    requires StrictlyDescending(s) && forall i :: 0 <= i < |s| ==> s[i].id != t.id
    ensures StrictlyDescending(r)
    ensures multiset(r) == multiset(s) + multiset{t}
  {
    if s == [] then [t]
    else if t.id > s[0].id then
      HeadIsNewest(s);
      ConsDescending(t, s);
      [t] + s
    else
      var rest := Insert(t, s[1..]);
      assert s == [s[0]] + s[1..];
      assert multiset(rest) == multiset(s[1..]) + multiset{t};
      forall i | 0 <= i < |rest| ensures rest[i].id < s[0].id {
        assert rest[i] in multiset(rest);
        if rest[i] != t {
          TailEntryOlder(s, rest[i]);
        }
      }
      ConsDescending(s[0], rest);
      [s[0]] + rest
  }

  /** `orderBy("tenant.id", "DESC")`, as an insertion sort. */
  function SortByIdDesc(s: seq<Tenant>): (r: seq<Tenant>)
    requires DistinctIds(s)
    ensures StrictlyDescending(r)
    ensures multiset(r) == multiset(s)
  {
    if s == [] then []
    else
      DistinctTail(s);
      var rest := SortByIdDesc(s[1..]);
      HeadNotInSortedTail(s, rest);
      assert s == [s[0]] + s[1..];
      Insert(s[0], rest)
  }

  /** The matches in the order of the listing. */
  function Ordered(tenants: seq<Tenant>, q: Option<string>): (r: seq<Tenant>)
    requires DistinctIds(tenants)
    ensures StrictlyDescending(r) && multiset(r) == multiset(Filter(tenants, q))
    ensures |r| == |Filter(tenants, q)|
  {
    var r := SortByIdDesc(Filter(tenants, q));
    assert |multiset(r)| == |multiset(Filter(tenants, q))|;
    r
  }

  /** `skip((currentPage - 1) * perPage).take(perPage)`. */
  function Page(s: seq<Tenant>, currentPage: nat, perPage: nat): (r: seq<Tenant>)
    requires currentPage >= 1 && perPage >= 1
    ensures |r| <= perPage
    ensures (currentPage - 1) * perPage <= |s| ==>
      r == s[(currentPage - 1) * perPage .. Min(currentPage * perPage, |s|)]
    ensures (currentPage - 1) * perPage > |s| ==> r == []
  {
    var lo := Min((currentPage - 1) * perPage, |s|);
    var hi := Min(lo + perPage, |s|);
    s[lo..hi]
  }

  function Min(a: nat, b: nat): nat { if a <= b then a else b }

  /** `getAll`. */
  function GetAll(tenants: seq<Tenant>, query: TenantQuery): (r: TenantList)
    requires DistinctIds(tenants) && query.currentPage >= 1 && query.perPage >= 1
    ensures StrictlyDescending(r.rows)
    ensures |r.rows| <= query.perPage
    ensures forall t :: t in r.rows ==> t in tenants && TenantMatches(t, query.q)
    ensures r.count == |Filter(tenants, query.q)|
  {
    var ordered := Ordered(tenants, query.q);
    var rows := Page(ordered, query.currentPage, query.perPage);
    assert forall t :: t in rows ==> t in multiset(ordered);
    TenantList(rows, |ordered|)
  }

  /** Without a search term every tenant is a match, in table order. */
  lemma {:induction false} NoSearchMatchesAll(tenants: seq<Tenant>, q: Option<string>)
    requires !HasSearch(q)
    ensures Filter(tenants, q) == tenants
  {
    if tenants != [] {
      NoSearchMatchesAll(tenants[1..], q);
      assert tenants == [tenants[0]] + tenants[1..];
    }
  }

  /** A tenant whose name contains the search term as written matches. */
  lemma {:induction false} NameHitMatches(t: Tenant, q: string)
    requires q != "" && Contains(t.name, q)
    ensures TenantMatches(t, Some(q))
  {
    var i :| 0 <= i <= |t.name| && q <= t.name[i..];
    var hay := t.name + " " + t.address;
    assert q <= hay[i..] by {
      assert forall k :: 0 <= k < |q| ==> hay[i..][k] == t.name[i..][k];
    }
    var lh, lq := Lower(hay), Lower(q);
    assert lq <= lh[i..] by {
      forall k | 0 <= k < |lq| ensures lh[i..][k] == lq[k] {
        assert hay[i..][k] == q[k];
      }
    }
  }

  /** The count is the same on every page. */
  lemma CountIndependentOfPage(tenants: seq<Tenant>, q: Option<string>, p1: int, p2: int, n1: int, n2: int)
    requires DistinctIds(tenants) && p1 >= 1 && p2 >= 1 && n1 >= 1 && n2 >= 1
    ensures GetAll(tenants, TenantQuery(q, p1, n1)).count == GetAll(tenants, TenantQuery(q, p2, n2)).count
  {
  }

  /** The rows of a page are the slice of the ordered matches it names. */
  lemma PageIsSlice(tenants: seq<Tenant>, query: TenantQuery)
    requires DistinctIds(tenants) && query.currentPage >= 1 && query.perPage >= 1
    ensures var s := Ordered(tenants, query.q);
      var lo := (query.currentPage - 1) * query.perPage;
      GetAll(tenants, query).rows == if lo <= |s| then s[lo..Min(lo + query.perPage, |s|)] else []
  {
  }

  /** On a list ordered newest first, pages `p` and `p + 1` share no entry. */
  lemma {:induction false} AdjacentPagesDisjoint(s: seq<Tenant>, p: nat, n: nat)
    requires StrictlyDescending(s) && p >= 1 && n >= 1
    ensures forall t :: t in Page(s, p, n) ==> t !in Page(s, p + 1, n)
  {
    var a := Page(s, p, n);
    var b := Page(s, p + 1, n);
    var lo := Min((p - 1) * n, |s|);
    var mid := Min(p * n, |s|);
    assert p * n == (p - 1) * n + n;
    assert (p + 1 - 1) * n == p * n;
    assert a == s[lo..Min(lo + n, |s|)];
    assert b == s[mid..Min(mid + n, |s|)];
    assert Min(lo + n, |s|) <= mid;
    forall i, j | 0 <= i < |a| && 0 <= j < |b| ensures a[i] != b[j] {
      assert a[i] == s[lo + i] && b[j] == s[mid + j];
      assert lo + i < mid + j;
    }
  }

  /** Consecutive pages share no tenant. */
  lemma {:induction false} ConsecutivePagesDisjoint(tenants: seq<Tenant>, q: Option<string>, p: int, n: int)
    requires DistinctIds(tenants) && p >= 1 && n >= 1
    ensures forall t :: t in GetAll(tenants, TenantQuery(q, p, n)).rows ==>
                        t !in GetAll(tenants, TenantQuery(q, p + 1, n)).rows
  {
    var s := Ordered(tenants, q);
    var a := GetAll(tenants, TenantQuery(q, p, n)).rows;
    var b := GetAll(tenants, TenantQuery(q, p + 1, n)).rows;
    assert a == Page(s, p, n) && b == Page(s, p + 1, n);
    AdjacentPagesDisjoint(s, p, n);
  }

  /** Pages 1..n one after another. */
  function Pages(s: seq<Tenant>, n: nat, perPage: nat): seq<Tenant>
    requires perPage >= 1
  {
    if n == 0 then [] else Pages(s, n - 1, perPage) + Page(s, n, perPage)
  }

  /** Pages 1..n together are the first n * perPage entries of the list. */
  lemma {:induction false} PagesArePrefix(s: seq<Tenant>, n: nat, perPage: nat)
    requires perPage >= 1
    ensures Pages(s, n, perPage) == s[..Min(n * perPage, |s|)]
  {
    if n > 0 {
      PagesArePrefix(s, n - 1, perPage);
      var lo := Min((n - 1) * perPage, |s|);
      assert Page(s, n, perPage) == s[lo..Min(n * perPage, |s|)];
      assert s[..lo] + s[lo..Min(n * perPage, |s|)] == s[..Min(n * perPage, |s|)];
    }
  }

  /** Enough pages together give exactly the ordered matches. */
  lemma {:induction false} AllPagesGiveOrderedMatches(tenants: seq<Tenant>, q: Option<string>, n: nat, perPage: nat)
    requires DistinctIds(tenants) && perPage >= 1
    requires n * perPage >= |Filter(tenants, q)|
    ensures Pages(Ordered(tenants, q), n, perPage) == Ordered(tenants, q)
  {
    var s := Ordered(tenants, q);
    PagesArePrefix(s, n, perPage);
    assert s[..|s|] == s;
  }

  /** The table after `update(id, data)` at clock time `now`. */
  function Updated(s: seq<Tenant>, id: nat, data: TenantData, now: nat): seq<Tenant> {
    seq(|s|, i requires 0 <= i < |s| =>
      if s[i].id == id then s[i].(name := data.name, address := data.address, updatedAt := now) else s[i])
  }

  /** `update` rewrites the name and address of tenant `id` (and its update
      time) and no other row; an absent id changes nothing. */
  lemma UpdateOnlyTarget(s: seq<Tenant>, id: nat, data: TenantData, now: nat)
    ensures |Updated(s, id, data, now)| == |s|
    ensures forall i :: 0 <= i < |s| && s[i].id != id ==> Updated(s, id, data, now)[i] == s[i]
    ensures forall i :: 0 <= i < |s| && s[i].id == id ==>
      var t := Updated(s, id, data, now)[i];
      t.id == id && t.name == data.name && t.address == data.address
      && t.createdAt == s[i].createdAt && t.updatedAt == now
    ensures (forall i :: 0 <= i < |s| ==> s[i].id != id) ==> Updated(s, id, data, now) == s
  {
  }

  function CountId(s: seq<Tenant>, id: nat): nat {
    if s == [] then 0 else (if s[0].id == id then 1 else 0) + CountId(s[1..], id)
  }

  class TenantService {
    var tenants: seq<Tenant>
    var nextId: nat

    /** Ids are generated increasingly from 1, so the table is ordered by id. */
    ghost predicate Valid()
      reads this
    {
      && nextId >= 1
      && (forall i :: 0 <= i < |tenants| ==> 1 <= tenants[i].id < nextId)
      && (forall i, j :: 0 <= i < j < |tenants| ==> tenants[i].id < tenants[j].id)
    }

    constructor ()
      ensures Valid() && tenants == [] && nextId == 1
    {
      tenants := [];
      nextId := 1;
    }

    /** `create`: one new tenant with exactly the given name and address. */
    method Create(data: TenantData, now: nat) returns (t: Tenant)
      requires Valid()
      modifies this
      ensures Valid()
      ensures t == Tenant(old(nextId), data.name, data.address, now, now)
      ensures tenants == old(tenants) + [t] && nextId == old(nextId) + 1
    {
      t := Tenant(nextId, data.name, data.address, now, now);
      tenants := tenants + [t];
      nextId := nextId + 1;
    }

    /** `update(id, data)`; `affected` is the number of rows rewritten. */
    method Update(id: nat, data: TenantData, now: nat) returns (affected: nat)
      requires Valid()
      modifies this
      ensures Valid()
      ensures tenants == Updated(old(tenants), id, data, now) && nextId == old(nextId)
      ensures affected == CountId(old(tenants), id)
    {
      affected := CountId(tenants, id);
      tenants := Updated(tenants, id, data, now);
    }

    /** `getAll` over the current table. */
    function List(query: TenantQuery): (r: TenantList)
      reads this
      requires Valid() && query.currentPage >= 1 && query.perPage >= 1
      ensures StrictlyDescending(r.rows) && |r.rows| <= query.perPage
      ensures forall t :: t in r.rows ==> t in tenants && TenantMatches(t, query.q)
      ensures r.count == |Filter(tenants, query.q)|
    {
      GetAll(tenants, query)
    }
  }
}
