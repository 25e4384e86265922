/** Cached pages over the pages on disk: the pages a reader sees, and what each
    step of the storage manager does to them. */
module StorageModel {
  import opened Wrappers
  import opened BufferPool

  type Files<P> = map<RelationId, seq<P>>
  type Frames<P> = seq<Option<Frame<P>>>
  type Table = map<PageKey, nat>

  ghost predicate OnDisk<P>(files: Files<P>, k: PageKey) {
    k.rel in files && k.page < |files[k.rel]|
  }

  /** The page a reader sees: the cached one if there is one. */
  ghost function PageIn<P>(frames: Frames<P>, table: Table, k: PageKey, onDisk: P): P {
    if k in table && table[k] < |frames| && frames[table[k]].Some? then frames[table[k]].value.page else onDisk
  }

  ghost function Overlay<P>(frames: Frames<P>, table: Table, k: RelationId, file: seq<P>): (pages: seq<P>)
    ensures |pages| == |file|
    ensures forall i :: 0 <= i < |file| ==> pages[i] == PageIn(frames, table, PageKey(k, i), file[i])
  {
    seq(|file|, i requires 0 <= i < |file| => PageIn(frames, table, PageKey(k, i), file[i]))
  }

  /** All pages of the registered relations, as readers see them. */
  ghost function View<P>(frames: Frames<P>, table: Table, files: Files<P>, registered: set<RelationId>): Files<P> {
    map r | r in registered && r in files :: Overlay(frames, table, r, files[r])
  }

  ghost predicate TableOk<P>(frames: Frames<P>, table: Table) {
    && (forall k :: k in table ==> table[k] < |frames| && frames[table[k]].Some? && frames[table[k]].value.key == k)
    && (forall i :: 0 <= i < |frames| && frames[i].Some? ==>
          frames[i].value.key in table && table[frames[i].value.key] == i)
  }

  ghost predicate FrameOk<P>(f: Option<Frame<P>>, files: Files<P>, registered: set<RelationId>) {
    f.Some? ==>
      && f.value.key.rel in registered && OnDisk(files, f.value.key)
      && (!f.value.dirty ==> f.value.page == files[f.value.key.rel][f.value.key.page])
  }

  /** Cached pages are on disk, and those of clean frames are up to date there. */
  ghost predicate FramesOk<P>(frames: Frames<P>, files: Files<P>, registered: set<RelationId>) {
    forall i :: 0 <= i < |frames| ==> FrameOk(frames[i], files, registered)
  }

  /** The same page for the same key, apart from pins and reference bits. */
  ghost predicate SamePage<P>(a: Option<Frame<P>>, b: Option<Frame<P>>) {
    if a.None? then b.None?
    else b.Some? && a.value.(pins := 0, referenced := false) == b.value.(pins := 0, referenced := false)
  }

  ghost predicate SamePages<P>(a: Frames<P>, b: Frames<P>) {
    |a| == |b| && forall i :: 0 <= i < |a| ==> SamePage(a[i], b[i])
  }

  /** Pinning, unpinning and clearing reference bits change nothing that is seen. */
  lemma SamePagesView<P>(a: Frames<P>, b: Frames<P>, table: Table, files: Files<P>, registered: set<RelationId>)
    requires TableOk(a, table) && FramesOk(a, files, registered) && SamePages(a, b)
    ensures TableOk(b, table) && FramesOk(b, files, registered)
    ensures View(b, table, files, registered) == View(a, table, files, registered)
  {
    forall i | 0 <= i < |b| ensures FrameOk(b[i], files, registered) {
      assert FrameOk(a[i], files, registered) && SamePage(a[i], b[i]);
    }
    forall k | k in table ensures table[k] < |b| && b[table[k]].Some? && b[table[k]].value.key == k
      && b[table[k]].value.page == a[table[k]].value.page
    {
      assert SamePage(a[table[k]], b[table[k]]);
    }
    forall i | 0 <= i < |b| && b[i].Some? ensures b[i].value.key in table && table[b[i].value.key] == i {
      assert SamePage(a[i], b[i]);
    }
    forall r | r in registered && r in files ensures Overlay(b, table, r, files[r]) == Overlay(a, table, r, files[r]) {
      forall i | 0 <= i < |files[r]|
        ensures PageIn(b, table, PageKey(r, i), files[r][i]) == PageIn(a, table, PageKey(r, i), files[r][i]) {
      }
    }
  }

  /** Writing through a guard changes the page that is written, and no other. */
  lemma WriteView<P>(frames: Frames<P>, table: Table, files: Files<P>, registered: set<RelationId>, i: nat, p: P)
    requires TableOk(frames, table) && FramesOk(frames, files, registered) && i < |frames| && frames[i].Some?
    ensures var (frames', view, k) := (frames[i := Some(frames[i].value.Write(p))],
                                       View(frames, table, files, registered), frames[i].value.key);
            && TableOk(frames', table) && FramesOk(frames', files, registered)
            && k.rel in view && k.page < |view[k.rel]|
            && View(frames', table, files, registered) == view[k.rel := view[k.rel][k.page := p]]
  {
    var frames', view, k := frames[i := Some(frames[i].value.Write(p))], View(frames, table, files, registered),
        frames[i].value.key;
    assert FrameOk(frames[i], files, registered);
    forall r | r in registered && r in files
      ensures Overlay(frames', table, r, files[r]) == if r == k.rel then view[r][k.page := p] else view[r]
    {
      forall j | 0 <= j < |files[r]|
        ensures PageIn(frames', table, PageKey(r, j), files[r][j])
             == if PageKey(r, j) == k then p else PageIn(frames, table, PageKey(r, j), files[r][j])
      {
      }
    }
  }

  /** Writing a cached page back and marking its frame clean changes nothing that
      is seen, and makes the disk page equal to it. */
  lemma FlushView<P>(frames: Frames<P>, table: Table, files: Files<P>, registered: set<RelationId>, i: nat)
    requires TableOk(frames, table) && FramesOk(frames, files, registered) && i < |frames| && frames[i].Some?
    ensures var k := frames[i].value.key;
            && k.rel in files && k.page < |files[k.rel]|
            && var (frames', files') := (frames[i := Some(frames[i].value.(dirty := false))],
                                         files[k.rel := files[k.rel][k.page := frames[i].value.page]]);
            && TableOk(frames', table) && FramesOk(frames', files', registered)
            && View(frames', table, files', registered) == View(frames, table, files, registered)
            && View(frames, table, files, registered)[k.rel][k.page] == files'[k.rel][k.page]
  {
    var k := frames[i].value.key;
    assert FrameOk(frames[i], files, registered);
    var frames', files' := frames[i := Some(frames[i].value.(dirty := false))],
        files[k.rel := files[k.rel][k.page := frames[i].value.page]];
    forall j | 0 <= j < |frames'| ensures FrameOk(frames'[j], files', registered) {
      assert FrameOk(frames[j], files, registered);
    }
    forall r | r in registered && r in files
      ensures Overlay(frames', table, r, files'[r]) == Overlay(frames, table, r, files[r]) {
      forall j | 0 <= j < |files[r]|
        ensures PageIn(frames', table, PageKey(r, j), files'[r][j]) == PageIn(frames, table, PageKey(r, j), files[r][j])
      {
      }
    }
  }

  /** Dropping a clean frame uncovers an equal page on disk. */
  lemma RemoveView<P>(frames: Frames<P>, table: Table, files: Files<P>, registered: set<RelationId>, k: PageKey)
    requires TableOk(frames, table) && FramesOk(frames, files, registered) && k in table
             && !frames[table[k]].value.dirty
    ensures var (frames', table') := (frames[table[k] := None], table - {k});
            && TableOk(frames', table') && FramesOk(frames', files, registered)
            && View(frames', table', files, registered) == View(frames, table, files, registered)
  {
    var frames', table' := frames[table[k] := None], table - {k};
    assert FrameOk(frames[table[k]], files, registered);
    forall j | 0 <= j < |frames'| ensures FrameOk(frames'[j], files, registered) {
      assert FrameOk(frames[j], files, registered);
    }
    forall r | r in registered && r in files
      ensures Overlay(frames', table', r, files[r]) == Overlay(frames, table, r, files[r]) {
      forall j | 0 <= j < |files[r]|
        ensures PageIn(frames', table', PageKey(r, j), files[r][j]) == PageIn(frames, table, PageKey(r, j), files[r][j])
      {
      }
    }
  }

  /** Caching a page that was read from disk changes nothing that is seen. */
  lemma InsertView<P>(frames: Frames<P>, table: Table, files: Files<P>, registered: set<RelationId>, i: nat, k: PageKey)
    requires TableOk(frames, table) && FramesOk(frames, files, registered) && i < |frames| && frames[i].None?
             && k !in table
    requires k.rel in registered && OnDisk(files, k)
    ensures var (frames', table') := (frames[i := Some(Frame(k, files[k.rel][k.page], 1, false, true))], table[k := i]);
            && TableOk(frames', table') && FramesOk(frames', files, registered)
            && View(frames', table', files, registered) == View(frames, table, files, registered)
  {
    var frames', table' := frames[i := Some(Frame(k, files[k.rel][k.page], 1, false, true))], table[k := i];
    forall j | 0 <= j < |frames'| ensures FrameOk(frames'[j], files, registered) {
      assert FrameOk(frames[j], files, registered);
    }
    forall r | r in registered && r in files
      ensures Overlay(frames', table', r, files[r]) == Overlay(frames, table, r, files[r]) {
      forall j | 0 <= j < |files[r]|
        ensures PageIn(frames', table', PageKey(r, j), files[r][j]) == PageIn(frames, table, PageKey(r, j), files[r][j])
      {
      }
    }
  }

  /** A page added to a file is seen at once, and changes no other. */
  lemma AllocateView<P>(frames: Frames<P>, table: Table, files: Files<P>, registered: set<RelationId>, rel: RelationId,
                        p: P)
    requires TableOk(frames, table) && FramesOk(frames, files, registered) && rel in registered && rel in files
    ensures var (files', view) := (files[rel := files[rel] + [p]], View(frames, table, files, registered));
            && FramesOk(frames, files', registered)
            && View(frames, table, files', registered) == view[rel := view[rel] + [p]]
  {
    var files', view := files[rel := files[rel] + [p]], View(frames, table, files, registered);
    forall j | 0 <= j < |frames| ensures FrameOk(frames[j], files', registered) {
      assert FrameOk(frames[j], files, registered);
    }
    forall k | k in table ensures OnDisk(files, k) {
      assert FrameOk(frames[table[k]], files, registered);
    }
    assert !OnDisk(files, PageKey(rel, |files[rel]|));
    forall r | r in registered && r in files
      ensures Overlay(frames, table, r, files'[r]) == if r == rel then view[r] + [p] else view[r]
    {
      forall j | 0 <= j < |files'[r]|
        ensures Overlay(frames, table, r, files'[r])[j] == if r == rel && j == |files[rel]| then p else view[r][j]
      {
      }
    }
  }

  /** Registering a relation adds its pages, none of which is cached. */
  lemma RegisterView<P>(frames: Frames<P>, table: Table, files: Files<P>, registered: set<RelationId>, rel: RelationId,
                        file: seq<P>)
    requires TableOk(frames, table) && FramesOk(frames, files, registered) && rel !in registered
    requires rel in files ==> files[rel] == file
    ensures var files' := files[rel := file];
            && FramesOk(frames, files', registered + {rel})
            && View(frames, table, files', registered + {rel}) == View(frames, table, files, registered)[rel := file]
  {
    var files' := files[rel := file];
    forall j | 0 <= j < |frames| ensures FrameOk(frames[j], files', registered + {rel}) {
      assert FrameOk(frames[j], files, registered);
    }
    forall k | k in table ensures k.rel != rel {
      assert FrameOk(frames[table[k]], files, registered);
    }
    assert Overlay(frames, table, rel, file) == file;
  }
}
