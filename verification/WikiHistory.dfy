/**
 The wiki told by the calls so far and which of them were accepted, and nothing else: which pages exist and what they
 read, which revisions there are and what they hold, and so the outcome of every further call.
 */
module WikiHistory {
  import opened Prelude
  import opened Wiki

  /** The state before call `n`. */
  function At(ops: seq<Op>, n: nat): State
    requires n <= |ops|
  {
    Run(ops[..n])
  }

  predicate Accepted(ops: seq<Op>, n: nat)
    requires n < |ops|
  {
    Step(At(ops, n), ops[n]).1
  }

  lemma NextAt(ops: seq<Op>, n: nat)
    requires n < |ops|
    ensures At(ops, n + 1) == Step(At(ops, n), ops[n]).0
  {
    assert ops[..n + 1][..n] == ops[..n];
  }

  // ---------- what the calls say ----------

  /** How many pages have been created; they are numbered in order. */
  function Creates(ops: seq<Op>, n: nat): nat
    requires n <= |ops|
  {
    if n == 0 then 0 else Creates(ops, n - 1) + if Accepted(ops, n - 1) && ops[n - 1].Create? then 1 else 0
  }

  /** The call leaves a revision: any create or revert, and an update that gives a content, unless that is empty. */
  predicate Records(op: Op) {
    op.Create? || op.Revert? || (op.Update? && op.content.Some? && op.content.value != "")
  }

  /** How many revisions have been recorded; they are numbered in order. */
  function Recordings(ops: seq<Op>, n: nat): nat
    requires n <= |ops|
  {
    if n == 0 then 0 else Recordings(ops, n - 1) + if Accepted(ops, n - 1) && Records(ops[n - 1]) then 1 else 0
  }

  /** The call before call `n` that recorded this revision. */
  function Recorder(ops: seq<Op>, n: nat, revision: RevisionId): (m: Option<nat>)
    requires n <= |ops|
    ensures m.Some? ==> m.value < n && Accepted(ops, m.value) && Records(ops[m.value])
    ensures m.Some? ==> Recordings(ops, m.value) == revision
    ensures m.None? ==> forall i | 0 <= i < n && Accepted(ops, i) && Records(ops[i]) :: Recordings(ops, i) != revision
  {
    if n == 0 then None
    else if Accepted(ops, n - 1) && Records(ops[n - 1]) && Recordings(ops, n - 1) == revision then Some(n - 1)
    else Recorder(ops, n - 1, revision)
  }

  /** The page a call is about. */
  function Subject(ops: seq<Op>, m: nat): PageId
    requires m < |ops|
  {
    if ops[m].Create? then Creates(ops, m) else ops[m].id
  }

  /** The content that call `m` writes, if it writes one: a revert writes what the recorder of its revision wrote. */
  function Content(ops: seq<Op>, m: nat): Option<string>
    requires m < |ops|
  {
    match ops[m]
    case Create(_, _, _, content) => Some(content)
    case Update(_, _, content, _) => content
    case Revert(_, revision) =>
      var recorder := Recorder(ops, m, revision);
      if recorder.Some? then Content(ops, recorder.value) else None
    case Delete(_) => None
  }

  function Title(op: Op): Option<string> {
    match op
    case Create(_, _, title, _) => Some(title)
    case Update(_, title, _, _) => title
    case _ => None
  }

  predicate Writes(ops: seq<Op>, m: nat, p: PageId)
    requires m < |ops|
  {
    Accepted(ops, m) && !ops[m].Delete? && Subject(ops, m) == p
  }

  /** The content last written to a page, its title last given, where it was put, and how often it was written. */
  function LastContent(ops: seq<Op>, n: nat, p: PageId): string
    requires n <= |ops|
  {
    if n == 0 then ""
    else if Writes(ops, n - 1, p) && Content(ops, n - 1).Some? then Content(ops, n - 1).value
    else LastContent(ops, n - 1, p)
  }

  function LastTitle(ops: seq<Op>, n: nat, p: PageId): string
    requires n <= |ops|
  {
    if n == 0 then ""
    else if Writes(ops, n - 1, p) && Title(ops[n - 1]).Some? then Title(ops[n - 1]).value
    else LastTitle(ops, n - 1, p)
  }

  function Place(ops: seq<Op>, n: nat, p: PageId): (string, string)
    requires n <= |ops|
  {
    if n == 0 then ("", "")
    else if Writes(ops, n - 1, p) && ops[n - 1].Create? then (ops[n - 1].space, ops[n - 1].slug)
    else Place(ops, n - 1, p)
  }

  function Writings(ops: seq<Op>, n: nat, p: PageId): nat
    requires n <= |ops|
  {
    if n == 0 then 0 else Writings(ops, n - 1, p) + if Writes(ops, n - 1, p) then 1 else 0
  }

  predicate Deleted(ops: seq<Op>, m: nat, n: nat, p: PageId)
    requires n <= |ops|
  {
    exists k: nat | k < n :: m <= k && ops[k] == Delete(p) && Accepted(ops, k)
  }

  predicate Exists(ops: seq<Op>, n: nat, p: PageId)
    requires n <= |ops|
  {
    p < Creates(ops, n) && !Deleted(ops, 0, n, p)
  }

  function PageSaid(ops: seq<Op>, n: nat, p: PageId): Page
    requires n <= |ops|
  {
    Page(Place(ops, n, p).0, Place(ops, n, p).1, LastTitle(ops, n, p), LastContent(ops, n, p), Writings(ops, n, p))
  }

  /** The revision that an accepted recording call leaves. */
  function RevisionSaid(ops: seq<Op>, m: nat): Revision
    requires m < |ops| && Content(ops, m).Some?
  {
    var p := Subject(ops, m);
    Revision(Recordings(ops, m), p, Content(ops, m).value, Writings(ops, m + 1, p))
  }

  /** Call `m` recorded a revision, and its page has not been deleted since. */
  ghost predicate Kept(ops: seq<Op>, m: nat, n: nat)
    requires n <= |ops|
  {
    m < n && Accepted(ops, m) && Records(ops[m]) && !Deleted(ops, m + 1, n, Subject(ops, m))
  }

  // ---------- the tables are as the calls say ----------

  ghost predicate PageTold(ops: seq<Op>, n: nat, p: PageId)
    requires n <= |ops|
  {
    && (p in At(ops, n).pages <==> Exists(ops, n, p))
    && (p in At(ops, n).pages ==> At(ops, n).pages[p] == PageSaid(ops, n, p))
    && (p >= Creates(ops, n) ==> Writings(ops, n, p) == 0 && !Deleted(ops, 0, n, p))
  }

  ghost predicate PagesTold(ops: seq<Op>, n: nat)
    requires n <= |ops|
  {
    forall p :: PageTold(ops, n, p)
  }

  ghost predicate RevisionTold(ops: seq<Op>, n: nat, r: Revision)
    requires n <= |ops|
  {
    exists m :: Kept(ops, m, n) && Content(ops, m).Some? && r == RevisionSaid(ops, m)
  }

  ghost predicate Told(ops: seq<Op>, n: nat)
    requires n <= |ops|
  {
    && PagesTold(ops, n)
    && (forall r :: r in At(ops, n).revisions <==> RevisionTold(ops, n, r))
    && (forall m | Kept(ops, m, n) :: Content(ops, m).Some?)
  }

  lemma StepCounts(st: State, op: Op)
    ensures var (st', ok) := Step(st, op);
            && st'.nextPage == st.nextPage + (if ok && op.Create? then 1 else 0)
            && st'.nextRevision == st.nextRevision + (if ok && Records(op) then 1 else 0)
  {
  }

  lemma {:induction false} Numbered(ops: seq<Op>, n: nat)
    requires n <= |ops|
    ensures At(ops, n).nextPage == Creates(ops, n) && At(ops, n).nextRevision == Recordings(ops, n)
  {
    if n == 0 {
      assert ops[..0] == [];
    } else {
      Numbered(ops, n - 1);
      NextAt(ops, n - 1);
      StepCounts(At(ops, n - 1), ops[n - 1]);
    }
  }

  lemma RecordingsNext(ops: seq<Op>, n: nat, next: nat)
    requires n + 1 == next <= |ops|
    ensures Recordings(ops, next) == Recordings(ops, n) + if Accepted(ops, n) && Records(ops[n]) then 1 else 0
  {
  }

  lemma {:induction false} RecordingsGrow(ops: seq<Op>, m: nat, n: nat)
    requires m <= n <= |ops|
    ensures Recordings(ops, m) <= Recordings(ops, n)
    decreases n, 1
  {
    if m < n {
      Grown(ops, m, n - 1, n);
    }
  }

  lemma {:induction false} Grown(ops: seq<Op>, m: nat, n: nat, next: nat)
    requires m <= n && n + 1 == next <= |ops|
    ensures Recordings(ops, m) <= Recordings(ops, next)
    decreases next, 0
  {
    RecordingsGrow(ops, m, n);
    RecordingsNext(ops, n, next);
  }

  lemma {:induction false} RecordedInOrder(ops: seq<Op>, m: nat, n: nat)
    requires m < n <= |ops| && Accepted(ops, m) && Records(ops[m])
    ensures Recordings(ops, m) < Recordings(ops, n)
  {
    RecordingsNext(ops, m, m + 1);
    RecordingsGrow(ops, m + 1, n);
  }

  /** A revision has one recorder. */
  lemma {:induction false} RecorderIs(ops: seq<Op>, m: nat, n: nat)
    requires m < n <= |ops| && Accepted(ops, m) && Records(ops[m])
    ensures Recorder(ops, n, Recordings(ops, m)) == Some(m)
  {
    var i := Recorder(ops, n, Recordings(ops, m)).value;
    if i < m {
      RecordedInOrder(ops, i, m);
    } else if m < i {
      RecordedInOrder(ops, m, i);
    }
  }

  lemma {:induction false} WithoutPageHas(revisions: seq<Revision>, p: PageId)
    ensures forall r :: r in WithoutPage(revisions, p) <==> r in revisions && r.page != p
  {
    if revisions != [] {
      var init, last := revisions[..|revisions| - 1], revisions[|revisions| - 1];
      WithoutPageHas(init, p);
      assert revisions == init + [last];
    }
  }

  /** What one call does to the revisions. */
  lemma {:induction false} StepRevisions(st: State, op: Op, p: PageId, r: Revision)
    requires p == if op.Create? then st.nextPage else op.id
    ensures var (st', ok) := Step(st, op);
            && (ok && Records(op) ==> p in st'.pages)
            && (r in st'.revisions <==>
                  (r in st.revisions && !(ok && op == Delete(r.page)))
                  || (ok && Records(op)
                      && r == Revision(st.nextRevision, p, st'.pages[p].content, st'.pages[p].version)))
  {
    if op.Delete? {
      WithoutPageHas(st.revisions, op.id);
    }
  }

  lemma {:induction false} DeletedNext(ops: seq<Op>, m: nat, n: nat, p: PageId)
    requires n < |ops|
    ensures Deleted(ops, m, n + 1, p) <==> Deleted(ops, m, n, p) || (m <= n && ops[n] == Delete(p) && Accepted(ops, n))
  {
  }

  lemma {:induction false} KeptNext(ops: seq<Op>, m: nat, n: nat)
    requires n < |ops|
    ensures Kept(ops, m, n + 1) <==>
            if m == n then Accepted(ops, n) && Records(ops[n])
            else Kept(ops, m, n) && !(ops[n] == Delete(Subject(ops, m)) && Accepted(ops, n))
  {
    if m < n {
      DeletedNext(ops, m + 1, n, Subject(ops, m));
    }
  }

  /** The content that call `n` writes to the page it is about, and the version it then has. */
  lemma {:induction false} WrittenIs(ops: seq<Op>, n: nat)
    requires n < |ops| && Told(ops, n) && Accepted(ops, n) && Records(ops[n])
    ensures var p, st' := Subject(ops, n), At(ops, n + 1);
            p in st'.pages && Content(ops, n) == Some(st'.pages[p].content)
  {
    var st := At(ops, n);
    NextAt(ops, n);
    Numbered(ops, n);
    if ops[n].Revert? {
      FindRevisionIs(st.revisions, ops[n].revision);
      var r := FindRevision(st.revisions, ops[n].revision).value;
      assert RevisionTold(ops, n, r);
      var m :| Kept(ops, m, n) && Content(ops, m).Some? && r == RevisionSaid(ops, m);
      RecorderIs(ops, m, n);
    }
  }

  lemma {:induction false} StepPages(st: State, op: Op, p: PageId)
    ensures var (st', ok) := Step(st, op);
            var about := !op.Delete? && p == (if op.Create? then st.nextPage else op.id);
            && (ok && about ==> p in st'.pages)
            && (ok && about && !op.Create? ==>
                  && p in st.pages
                  && st'.pages[p] == Page(st.pages[p].space, st.pages[p].slug,
                                          if Title(op).Some? then Title(op).value else st.pages[p].title,
                                          st'.pages[p].content, st.pages[p].version + 1)
                  && (op.Update? ==>
                        st'.pages[p].content == if op.content.Some? then op.content.value else st.pages[p].content))
            && (ok && about && op.Create? ==>
                  st'.pages[p] == Page(op.space, op.slug, op.firstTitle, op.firstContent, 1))
            && (!(ok && about) ==>
                  (p in st'.pages <==> p in st.pages && !(ok && op == Delete(p)))
                  && (p in st'.pages ==> st'.pages[p] == st.pages[p]))
  {
  }

  lemma {:induction false} PageNext(ops: seq<Op>, n: nat, p: PageId)
    requires n < |ops| && Told(ops, n)
    ensures PageTold(ops, n + 1, p)
  {
    var st, op := At(ops, n), ops[n];
    NextAt(ops, n);
    Numbered(ops, n);
    StepPages(st, op, p);
    DeletedNext(ops, 0, n, p);
    assert PageTold(ops, n, p);
    if Writes(ops, n, p) && Records(op) {
      WrittenIs(ops, n);
    }
  }

  lemma {:induction false} RevisionNext(ops: seq<Op>, n: nat, r: Revision)
    requires n < |ops| && Told(ops, n) && PagesTold(ops, n + 1)
    ensures r in At(ops, n + 1).revisions <==> RevisionTold(ops, n + 1, r)
  {
    var st, op := At(ops, n), ops[n];
    NextAt(ops, n);
    Numbered(ops, n);
    StepRevisions(st, op, Subject(ops, n), r);
    if Accepted(ops, n) && Records(op) {
      WrittenIs(ops, n);
      assert PageTold(ops, n + 1, Subject(ops, n));
      KeptNext(ops, n, n);
    }
    if RevisionTold(ops, n + 1, r) {
      var m :| Kept(ops, m, n + 1) && Content(ops, m).Some? && r == RevisionSaid(ops, m);
      KeptNext(ops, m, n);
    }
    if RevisionTold(ops, n, r) && !(op == Delete(r.page) && Accepted(ops, n)) {
      var m :| Kept(ops, m, n) && Content(ops, m).Some? && r == RevisionSaid(ops, m);
      KeptNext(ops, m, n);
    }
  }

  lemma {:induction false} ToldNext(ops: seq<Op>, m: nat, n: nat)
    requires n == m + 1 <= |ops| && Told(ops, m)
    ensures Told(ops, n)
  {
    forall p ensures PageTold(ops, n, p) {
      PageNext(ops, m, p);
    }
    forall r ensures r in At(ops, n).revisions <==> RevisionTold(ops, n, r) {
      RevisionNext(ops, m, r);
    }
    forall k | Kept(ops, k, n) ensures Content(ops, k).Some? {
      KeptNext(ops, k, m);
      if k == m {
        WrittenIs(ops, m);
      }
    }
  }

  /**
   In every reachable state: a page exists exactly when it was created and has not been deleted, with the content and
   the title last written to it and a version for each writing; and a revision exists exactly when a call recorded it
   and its page has not been deleted since, with the content that call wrote.
   */
  lemma {:induction false} TablesExactly(ops: seq<Op>, n: nat)
    requires n <= |ops|
    ensures Told(ops, n)
  {
    if n == 0 {
      assert ops[..0] == [];
    } else {
      TablesExactly(ops, n - 1);
      ToldNext(ops, n - 1, n);
    }
  }

  /** Revision ids are unique in every reachable state. */
  lemma {:induction false} RevisionsAreUnique(ops: seq<Op>, r: Revision, r': Revision)
    requires r in Run(ops).revisions && r' in Run(ops).revisions && r.id == r'.id
    ensures r == r'
  {
    var n := |ops|;
    TablesExactly(ops, n);
    assert ops[..n] == ops && At(ops, n) == Run(ops);
    assert r in At(ops, n).revisions && r' in At(ops, n).revisions;
    assert RevisionTold(ops, n, r) && RevisionTold(ops, n, r');
    var m :| Kept(ops, m, n) && Content(ops, m).Some? && r == RevisionSaid(ops, m);
    var m' :| Kept(ops, m', n) && Content(ops, m').Some? && r' == RevisionSaid(ops, m');
    RecorderIs(ops, m, n);
    RecorderIs(ops, m', n);
  }

  // ---------- the outcome of every call ----------

  ghost predicate Due(ops: seq<Op>, n: nat)
    requires n < |ops|
  {
    match ops[n]
    case Create(space, slug, _, _) => !exists p :: Exists(ops, n, p) && Place(ops, n, p) == (space, slug)
    case Update(id, _, _, note) => Exists(ops, n, id) && note.None?
    case Revert(id, revision) =>
      Exists(ops, n, id) && exists m :: Kept(ops, m, n) && Recordings(ops, m) == revision
    case Delete(id) => Exists(ops, n, id)
  }

  lemma {:induction false} SlugTakenExactly(ops: seq<Op>, n: nat, space: string, slug: string)
    requires n <= |ops|
    ensures SlugTaken(At(ops, n).pages, space, slug)
            <==> exists p :: Exists(ops, n, p) && Place(ops, n, p) == (space, slug)
  {
    var pages := At(ops, n).pages;
    TablesExactly(ops, n);
    if SlugTaken(pages, space, slug) {
      var p :| p in pages && pages[p].space == space && pages[p].slug == slug;
      assert PageTold(ops, n, p);
    }
    if p :| Exists(ops, n, p) && Place(ops, n, p) == (space, slug) {
      assert PageTold(ops, n, p);
    }
  }

  /**
   Over any run, the calls before decide every call: a page is created exactly on a free slug, updated or deleted
   exactly while it exists, and reverted exactly to a revision that is still there, of whatever page.
   */
  lemma {:induction false} OutcomesExactly(ops: seq<Op>, n: nat)
    requires n < |ops|
    ensures Accepted(ops, n) <==> Due(ops, n)
  {
    TablesExactly(ops, n);
    var st := At(ops, n);
    match ops[n]
    case Create(space, slug, _, _) =>
      SlugTakenExactly(ops, n, space, slug);
    case Update(id, _, _, _) => assert PageTold(ops, n, id);
    case Delete(id) => assert PageTold(ops, n, id);
    case Revert(id, revision) =>
      assert PageTold(ops, n, id);
      FindRevisionIs(st.revisions, revision);
      if m :| Kept(ops, m, n) && Recordings(ops, m) == revision {
        assert RevisionTold(ops, n, RevisionSaid(ops, m));
      }
      if FindRevision(st.revisions, revision).Some? {
        var r := FindRevision(st.revisions, revision).value;
        assert RevisionTold(ops, n, r);
        var m :| Kept(ops, m, n) && Content(ops, m).Some? && r == RevisionSaid(ops, m);
        assert Recordings(ops, m) == revision;
      }
  }

  /**
   What a call once wrote comes back when a page is reverted to the revision it recorded, whatever happened between, and
   even if that was another page; the title and every other page stay as they are.
   */
  lemma {:induction false} RevertRestores(ops: seq<Op>, m: nat, n: nat, id: PageId)
    requires m < n < |ops| && Accepted(ops, m) && Records(ops[m])
    requires ops[n] == Revert(id, Recordings(ops, m)) && Accepted(ops, n)
    ensures var wrote := Subject(ops, m);
            wrote in At(ops, m + 1).pages && Content(ops, m) == Some(At(ops, m + 1).pages[wrote].content)
    ensures var was, content := At(ops, n).pages, At(ops, m + 1).pages[Subject(ops, m)].content;
            && id in was
            && At(ops, n + 1).pages == was[id := was[id].(content := content, version := was[id].version + 1)]
  {
    TablesExactly(ops, m);
    WrittenIs(ops, m);
    RevertWrites(ops, m, n, id);
    NextAt(ops, n);
    RevertKeepsRest(At(ops, n), id, Recordings(ops, m));
  }

  lemma {:induction false} RevertWrites(ops: seq<Op>, m: nat, n: nat, id: PageId)
    requires m < n < |ops| && Accepted(ops, m) && Records(ops[m])
    requires ops[n] == Revert(id, Recordings(ops, m)) && Accepted(ops, n)
    ensures id in At(ops, n + 1).pages && Content(ops, m) == Some(At(ops, n + 1).pages[id].content)
  {
    TablesExactly(ops, n);
    WrittenIs(ops, n);
    RecorderIs(ops, m, n);
  }

  lemma RevertKeepsRest(st: State, id: PageId, revision: RevisionId)
    requires Step(st, Revert(id, revision)).1
    ensures var st' := Step(st, Revert(id, revision)).0;
            && id in st.pages && id in st'.pages
            && st'.pages ==
               st.pages[id := st.pages[id].(content := st'.pages[id].content, version := st.pages[id].version + 1)]
  {
  }
}
