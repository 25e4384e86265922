/** A heap table: rows spread over slotted pages, named by page and slot. */
module HeapTable {
  import opened Wrappers
  import opened Keys
  import opened PageLayout
  import opened PageWrites
  import opened PageCompaction
  import opened SlottedPage

  datatype Scanned = Scanned(id: RowId, row: seq<Byte>)

  /** `Missing`: there is no such page to be read. */
  datatype TableError = InPage(error: PageError) | Missing

  type PageRows = map<nat, seq<Byte>>

  ghost function PutIn(rows: PageRows, s: nat, row: seq<Byte>): PageRows {
    rows[s := row]
  }

  /** The contents of the pages as one map from row ids to rows. */
  ghost function Table(contents: seq<PageRows>): map<RowId, seq<Byte>> {
    map i: nat, s: nat | i < |contents| && s in contents[i] :: RowId(i, s) := contents[i][s]
  }

  lemma TableAt(contents: seq<PageRows>, id: RowId)
    ensures id in Table(contents) <==> id.page < |contents| && id.slot in contents[id.page]
    ensures id in Table(contents) ==> Table(contents)[id] == contents[id.page][id.slot]
  {
    if id.page < |contents| && id.slot in contents[id.page] {
      assert RowId(id.page, id.slot) in Table(contents);
    }
  }

  lemma TablePut(contents: seq<PageRows>, id: RowId, row: seq<Byte>)
    requires id.page < |contents|
    ensures Table(contents[id.page := PutIn(contents[id.page], id.slot, row)]) == Table(contents)[id := row]
  {
    var contents' := contents[id.page := PutIn(contents[id.page], id.slot, row)];
    forall x ensures x in Table(contents') <==> x in Table(contents)[id := row]
             ensures x in Table(contents') ==> Table(contents')[x] == Table(contents)[id := row][x] {
      TableAt(contents, x);
      TableAt(contents', x);
    }
  }

  lemma TableRemove(contents: seq<PageRows>, id: RowId)
    requires id.page < |contents|
    ensures Table(contents[id.page := contents[id.page] - {id.slot}]) == Table(contents) - {id}
  {
    var contents' := contents[id.page := contents[id.page] - {id.slot}];
    forall x ensures x in Table(contents') <==> x in Table(contents) - {id}
             ensures x in Table(contents') ==> Table(contents')[x] == Table(contents)[x] {
      TableAt(contents, x);
      TableAt(contents', x);
    }
  }

  lemma TableGrow(contents: seq<PageRows>)
    ensures Table(contents + [map[]]) == Table(contents)
  {
    forall x ensures x in Table(contents + [map[]]) <==> x in Table(contents)
             ensures x in Table(contents) ==> Table(contents + [map[]])[x] == Table(contents)[x] {
      TableAt(contents, x);
      TableAt(contents + [map[]], x);
    }
  }

  // ---------- scans ----------

  ghost function OfPage(page: nat, rows: seq<Stored>): seq<Scanned> {
    seq(|rows|, j requires 0 <= j < |rows| => Scanned(RowId(page, rows[j].slot), rows[j].row))
  }

  ghost predicate Before(a: RowId, b: RowId) {
    a.page < b.page || (a.page == b.page && a.slot < b.slot)
  }

  ghost predicate ScannedAt(e: Scanned, table: map<RowId, seq<Byte>>) {
    e.id in table && table[e.id] == e.row
  }

  ghost function Ids(list: seq<Scanned>): set<RowId> {
    set j | 0 <= j < |list| :: list[j].id
  }

  /** A list of exactly the rows of a table, once each, by page and then slot. */
  ghost predicate Scans(list: seq<Scanned>, table: map<RowId, seq<Byte>>) {
    && (forall j :: 0 <= j < |list| ==> ScannedAt(list[j], table))
    && (forall i, j :: 0 <= i < j < |list| ==> Before(list[i].id, list[j].id))
    && (forall id :: id in table ==> id in Ids(list))
  }

  /** A new page takes every row that is not too large. */
  lemma NewPageHasRoom(l: Layout, len: nat)
    requires l.slots == []
    ensures len <= 8180 <==> HasRoom(l, len)
  {
    LongestRow(len);
  }

  /** Appending the rows of the next page keeps the list a scan. */
  lemma ScanPage(contents: seq<PageRows>, i: nat, list: seq<Scanned>, n: nat)
    requires i < |contents| && Scans(list, Table(contents[..i]))
    requires forall s :: s in contents[i] ==> s < n
    ensures Scans(list + OfPage(i, InOrder(contents[i], n)), Table(contents[..i + 1]))
  {
    var rows := InOrder(contents[i], n);
    var more := OfPage(i, rows);
    InOrderLists(contents[i], n);
    ScannedBefore(contents, i, list);
    forall j | 0 <= j < |more| ensures ScannedAt(more[j], Table(contents[..i + 1])) && more[j].id.page == i {
      assert ListedAt(rows, contents[i], n, j);
      TableAt(contents[..i + 1], more[j].id);
    }
    forall id | id in Table(contents[..i + 1]) ensures id in Ids(list) || id in Ids(more) {
      TableAt(contents[..i + 1], id);
      TableAt(contents[..i], id);
      if id.page == i {
        var j :| 0 <= j < |rows| && rows[j].slot == id.slot;
        assert more[j].id == id;
      }
    }
    hide Table, InOrder, OfPage;
    ScansAppend(list, more, Table(contents[..i + 1]), i);
  }

  lemma ScannedBefore(contents: seq<PageRows>, i: nat, list: seq<Scanned>)
    requires i < |contents| && Scans(list, Table(contents[..i]))
    ensures forall j :: 0 <= j < |list| ==> ScannedAt(list[j], Table(contents[..i + 1])) && list[j].id.page < i
  {
    forall j | 0 <= j < |list| ensures ScannedAt(list[j], Table(contents[..i + 1])) && list[j].id.page < i {
      assert ScannedAt(list[j], Table(contents[..i]));
      TableAt(contents[..i], list[j].id);
      TableAt(contents[..i + 1], list[j].id);
    }
  }

  lemma ScansAppend(list: seq<Scanned>, more: seq<Scanned>, table: map<RowId, seq<Byte>>, i: nat)
    requires forall j :: 0 <= j < |list| ==> ScannedAt(list[j], table) && list[j].id.page < i
    requires forall j :: 0 <= j < |more| ==> ScannedAt(more[j], table) && more[j].id.page == i
    requires forall x, y :: 0 <= x < y < |list| ==> Before(list[x].id, list[y].id)
    requires forall x, y :: 0 <= x < y < |more| ==> more[x].id.slot < more[y].id.slot
    requires forall id :: id in table ==> id in Ids(list) || id in Ids(more)
    ensures Scans(list + more, table)
  {
    var all := list + more;
    forall id | id in table ensures id in Ids(all) {
      if id in Ids(list) {
        var j :| 0 <= j < |list| && list[j].id == id;
        assert all[j].id == id;
      } else {
        var j :| 0 <= j < |more| && more[j].id == id;
        assert all[|list| + j].id == id;
      }
    }
  }

  class HeapTable {
    var pages: seq<Page>
    ghost var contents: seq<PageRows>

    ghost predicate Apart()
      reads this
    {
      forall i, j :: 0 <= i < j < |pages| ==> pages[i] != pages[j] && pages[i].data != pages[j].data
    }

    ghost predicate PageHolds(i: int)
      requires 0 <= i < |pages| && |contents| == |pages|
      reads this, pages[i], pages[i].data
    {
      pages[i].Valid() && pages[i].Content() == contents[i]
    }

    ghost predicate Valid()
      reads this, pages, Arrays(pages)
    {
      && |contents| == |pages| && Apart()
      && forall i :: 0 <= i < |pages| ==> PageHolds(i)
    }

    ghost function Rows(): map<RowId, seq<Byte>>
      reads this
    {
      Table(contents)
    }

    constructor ()
      ensures Valid() && Rows() == map[] && pages == [] && fresh(Repr())
    {
      pages, contents := [], [];
    }

    /** The objects the table is made of. */
    ghost function Repr(): set<object>
      reads this
    {
      {this} + (set p | p in pages :: p as object) + Arrays(pages)
    }

    lemma OwnsPage(i: nat)
      requires i < |pages|
      ensures {this, pages[i], pages[i].data} <= Repr()
    {
      assert pages[i] in pages && pages[i].data in Arrays(pages);
      assert pages[i] in (set p | p in pages :: p as object);
    }

    method AddPage()
      requires Valid()
      modifies this
      ensures Valid() && Rows() == old(Rows()) && fresh(Repr() - old(Repr()))
      ensures |pages| == |old(pages)| + 1 && pages[..|old(pages)|] == old(pages) && contents == old(contents) + [map[]]
      ensures fresh(pages[|old(pages)|]) && fresh(pages[|old(pages)|].data) && pages[|old(pages)|].layout.slots == []
    {
      var page: Page := new Page.New();
      TableGrow(contents);
      hide Page.Valid, Page.Content;
      pages, contents := pages + [page], contents + [map[]];
      forall i | 0 <= i < |pages| ensures PageHolds(i) {
        assert i < |pages| - 1 ==> old(PageHolds(i));
      }
    }

    /** Only one page and its contents have changed. */
    twostate lemma OthersHold(i: nat)
      requires old(Valid()) && i < |pages| && pages == old(pages) && |contents| == |pages| && PageHolds(i)
      requires forall j :: 0 <= j < |pages| && j != i ==>
                 contents[j] == old(contents[j]) && unchanged(pages[j]) && unchanged(pages[j].data)
      ensures Valid()
    {
      hide Page.Valid, Page.Content;
      forall j | 0 <= j < |pages| ensures PageHolds(j) {
        assert j != i ==> old(PageHolds(j));
      }
    }

    method InsertInto(i: nat, row: seq<Byte>) returns (r: Result<nat, PageError>)
      requires Valid() && i < |pages|
      modifies this`contents, pages[i], pages[i].data
      ensures Valid() && pages == old(pages) && Repr() == old(Repr())
      ensures r == Err(RowTooLarge) <==> |row| > 8180
      ensures |row| <= 8180 ==> (r == Err(StorageFull) <==> !old(HasRoom(pages[i].layout, |row|)))
      ensures r.Err? ==> r.error in {RowTooLarge, StorageFull} && contents == old(contents)
      ensures r.Ok? ==> RowId(i, r.value) !in old(Rows()) && Rows() == old(Rows())[RowId(i, r.value) := row]
    {
      hide Page.Valid;
      hide HasRoom;
      hide Page.Content;
      assert PageHolds(i);
      r := pages[i].InsertRow(row);
      if r.Ok? {
        TableAt(contents, RowId(i, r.value));
        TablePut(contents, RowId(i, r.value), row);
        contents := contents[i := PutIn(contents[i], r.value, row)];
      }
      OthersHold(i);
    }

    /** The first page with room takes the row; a new page is added if none has. */
    method Insert(row: seq<Byte>) returns (r: Result<RowId, TableError>)
      requires Valid()
      modifies Repr()
      ensures Valid() && fresh(Repr() - old(Repr()))
      ensures r.Ok? <==> |row| <= 8180
      ensures r.Err? ==> r == Err(InPage(RowTooLarge)) && Rows() == old(Rows())
      ensures r.Ok? ==> r.value !in old(Rows()) && Rows() == old(Rows())[r.value := row]
      ensures r.Ok? ==> forall i :: 0 <= i < r.value.page && i < |old(pages)| ==> old(!HasRoom(pages[i].layout, |row|))
      ensures r.Ok? ==> r.value.page <= |old(pages)|
    {
      ghost var was := pages;
      var i := 0;
      var n := |pages|;
      while i < n
        invariant 0 <= i <= n && Valid() && pages == was && contents == old(contents)
        invariant (i > 0 ==> |row| <= 8180) && Repr() == old(Repr())
        invariant forall j :: 0 <= j < i ==> old(!HasRoom(pages[j].layout, |row|))
        invariant forall j :: i <= j < n ==> pages[j].layout == old(pages[j].layout)
      {
        hide Valid, HasRoom, Alloc, Repr;
        ApartFrom(i);
        OwnsPage(i);
        var s := InsertInto(i, row);
        if s.Ok? {
          return Ok(RowId(i, s.value));
        }
        if s.error != StorageFull {
          return Err(InPage(s.error));
        }
        i := i + 1;
      }
      assert this in Repr();
      hide Valid, HasRoom, Alloc, Repr;
      AddPage();
      NewPageHasRoom(pages[n].layout, |row|);
      OwnsPage(n);
      var s := InsertInto(n, row);
      return if s.Ok? then Ok(RowId(n, s.value)) else Err(InPage(s.error));
    }

    lemma ApartFrom(i: nat)
      requires Valid() && i < |pages|
      ensures forall j :: 0 <= j < |pages| && j != i ==> pages[j] != pages[i] && pages[j].data != pages[i].data
      ensures pages[i] in pages && pages[i].data in Arrays(pages)
    {
    }

    method Get(id: RowId) returns (r: Result<seq<Byte>, TableError>)
      requires Valid()
      ensures r == if id.page >= |pages| then Err(Missing)
                   else if id in Rows() then Ok(Rows()[id])
                   else Err(InPage(SlotNotFound))
    {
      if id.page >= |pages| {
        return Err(Missing);
      }
      assert PageHolds(id.page);
      TableAt(contents, id);
      var row := pages[id.page].ReadRow(id.slot);
      return if row.Ok? then Ok(row.value) else Err(InPage(row.error));
    }

    method UpdateIn(i: nat, s: nat, row: seq<Byte>) returns (r: Result<(), PageError>)
      requires Valid() && i < |pages|
      modifies this`contents, pages[i], pages[i].data
      ensures Valid() && pages == old(pages)
      ensures s !in old(contents[i]) ==> r == Err(SlotNotFound)
      ensures s in old(contents[i]) ==>
                r == UpdateOutcome(old(pages[i].layout), |old(contents[i])[s]|, |row|)
      ensures contents == if r.Ok? then old(contents)[i := PutIn(old(contents)[i], s, row)] else old(contents)
    {
      assert PageHolds(i);
      hide Page.Valid, Page.Content, UpdateOutcome;
      r := pages[i].UpdateRow(s, row);
      if r.Ok? {
        contents := contents[i := PutIn(contents[i], s, row)];
      }
      OthersHold(i);
    }

    /** The row is replaced, or nothing changes: the row does not exist, or it
        outgrows its space and does not fit beside all rows of its page. */
    method Update(id: RowId, row: seq<Byte>) returns (r: Result<(), TableError>)
      requires Valid()
      modifies Repr()
      ensures Valid() && pages == old(pages) && Repr() == old(Repr())
      ensures id.page >= |pages| ==> r == Err(Missing)
      ensures id.page < |pages| && id !in old(Rows()) ==> r == Err(InPage(SlotNotFound))
      ensures id in old(Rows()) ==>
                && id.page < |pages|
                && var out := UpdateOutcome(old(pages[id.page].layout), |old(Rows())[id]|, |row|);
                   if out.Ok? then r.Ok? else r == Err(InPage(out.error))
      ensures Rows() == if r.Ok? then old(Rows())[id := row] else old(Rows())
    {
      TableAt(contents, id);
      if id.page >= |pages| {
        return Err(Missing);
      }
      TablePut(contents, id, row);
      OwnsPage(id.page);
      hide Table, UpdateOutcome;
      var done := UpdateIn(id.page, id.slot, row);
      return if done.Ok? then Ok(()) else Err(InPage(done.error));
    }

    method Delete(id: RowId) returns (r: Result<(), TableError>)
      requires Valid()
      modifies Repr()
      ensures Valid() && pages == old(pages) && Repr() == old(Repr())
      ensures r == if id.page >= |pages| then Err(Missing)
                   else if id in old(Rows()) then Ok(())
                   else Err(InPage(SlotNotFound))
      ensures Rows() == old(Rows()) - {id}
    {
      TableAt(contents, id);
      if id.page >= |pages| {
        return Err(Missing);
      }
      OwnsPage(id.page);
      assert PageHolds(id.page);
      TableRemove(contents, id);
      hide Page.Valid, Page.Content;
      var done := pages[id.page].DeleteRow(id.slot);
      contents := contents[id.page := contents[id.page] - {id.slot}];
      OthersHold(id.page);
      return if done.Ok? then Ok(()) else Err(InPage(done.error));
    }

    static method WithIds(i: nat, rows: seq<Stored>) returns (list: seq<Scanned>)
      ensures list == OfPage(i, rows)
    {
      list := [];
      var k := 0;
      while k < |rows|
        invariant 0 <= k <= |rows| && list == OfPage(i, rows[..k])
      {
        list := list + [Scanned(RowId(i, rows[k].slot), rows[k].row)];
        k := k + 1;
      }
      assert rows[..k] == rows;
    }

    /** Every live row once, by page and then by slot. */
    method Scan() returns (list: seq<Scanned>)
      requires Valid()
      ensures Scans(list, Rows())
    {
      list := [];
      var i := 0;
      while i < |pages|
        invariant 0 <= i <= |pages| && Scans(list, Table(contents[..i]))
      {
        assert PageHolds(i);
        var rows := pages[i].ScanRows();
        RowsDomain(pages[i].data[..], pages[i].layout);
        ScanPage(contents, i, list, |pages[i].layout.slots|);
        var more := WithIds(i, rows);
        list := list + more;
        i := i + 1;
      }
      assert contents[..i] == contents;
    }
  }

  function Arrays(pages: seq<Page>): set<array<Byte>> {
    set p | p in pages :: p.data
  }
}
