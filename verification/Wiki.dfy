/** Wiki pages, their versions, and the revision log from which every past version can be read back. */
module Wiki {
  import opened Prelude

  type PageId = nat
  type RevisionId = nat

  datatype Page = Page(space: string, slug: string, title: string, content: string, version: int)
  datatype Revision = Revision(id: RevisionId, page: PageId, content: string, version: int)

  /** The two tables; fresh ids are counted up and never handed out again. */
  datatype State = State(pages: map<PageId, Page>, revisions: seq<Revision>, nextPage: nat, nextRevision: nat)

  datatype Op =
    | Create(space: string, slug: string, firstTitle: string, firstContent: string)
    | Update(id: PageId, title: Option<string>, content: Option<string>, changeNote: Option<string>)
    | Revert(id: PageId, revision: RevisionId)
    | Delete(id: PageId)

  const EMPTY := State(map[], [], 0, 0)

  predicate SlugTaken(pages: map<PageId, Page>, space: string, slug: string) {
    exists p :: p in pages && pages[p].space == space && pages[p].slug == slug
  }

  function FindRevision(revisions: seq<Revision>, id: RevisionId): Option<Revision> {
    if revisions == [] then None
    else if revisions[0].id == id then Some(revisions[0]) else FindRevision(revisions[1..], id)
  }

  lemma {:induction false} FindRevisionIs(revisions: seq<Revision>, id: RevisionId)
    ensures var r := FindRevision(revisions, id);
            if r.Some? then r.value in revisions && r.value.id == id else forall x | x in revisions :: x.id != id
  {
    if revisions != [] {
      FindRevisionIs(revisions[1..], id);
      assert revisions == [revisions[0]] + revisions[1..];
    }
  }

  /** The revisions of one page, in the order they were recorded. */
  function RevisionsOf(revisions: seq<Revision>, p: PageId): seq<Revision> {
    if revisions == [] then [] else
      var rest, r := RevisionsOf(revisions[..|revisions| - 1], p), revisions[|revisions| - 1];
      if r.page == p then rest + [r] else rest
  }

  function WithoutPage(revisions: seq<Revision>, p: PageId): seq<Revision> {
    if revisions == [] then [] else
      var rest, r := WithoutPage(revisions[..|revisions| - 1], p), revisions[|revisions| - 1];
      if r.page == p then rest else rest + [r]
  }

  function Record(st: State, p: PageId, page: Page): State {
    State(st.pages[p := page], st.revisions + [Revision(st.nextRevision, p, page.content, page.version)],
          st.nextPage, st.nextRevision + 1)
  }

  /** One service call. A rejected call changes nothing. */
  function Step(st: State, op: Op): (State, bool) {
    match op
    case Create(space, slug, title, content) =>
      if SlugTaken(st.pages, space, slug) then (st, false)  // unique key (spaceId, slug)
      else (Record(st, st.nextPage, Page(space, slug, title, content, 1)).(nextPage := st.nextPage + 1), true)
    case Update(id, title, content, changeNote) =>
      // A change note is spread into the page's own update, and a page has no such column.
      if id !in st.pages || changeNote.Some? then (st, false) else
      var was := st.pages[id];
      var page := was.(title := if title.Some? then title.value else was.title,
                       content := if content.Some? then content.value else was.content,
                       version := was.version + 1);
      // An empty content is stored on the page, but counts as absent when it comes to recording it.
      if content.Some? && content.value != "" then (Record(st, id, page), true)
      else (st.(pages := st.pages[id := page]), true)
    case Revert(id, revision) =>
      var r := FindRevision(st.revisions, revision);
      if r.None? || id !in st.pages then (st, false)
      else (Record(st, id, st.pages[id].(content := r.value.content, version := st.pages[id].version + 1)), true)
    case Delete(id) =>
      if id !in st.pages then (st, false)
      else (st.(pages := st.pages - {id}, revisions := WithoutPage(st.revisions, id)), true)
  }

  function Run(ops: seq<Op>): State {
    if ops == [] then EMPTY else Step(Run(ops[..|ops| - 1]), ops[|ops| - 1]).0
  }

  class WikiService {
    var pages: map<PageId, Page>
    var revisions: seq<Revision>
    var nextPage: nat
    var nextRevision: nat

    ghost function Now(): State
      reads this
    {
      State(pages, revisions, nextPage, nextRevision)
    }

    constructor ()
      ensures Now() == EMPTY
    {
      pages, revisions, nextPage, nextRevision := map[], [], 0, 0;
    }

    method CreateRevision(p: PageId, content: string, version: int)
      modifies this`revisions, this`nextRevision
      ensures revisions == old(revisions) + [Revision(old(nextRevision), p, content, version)]
      ensures nextRevision == old(nextRevision) + 1
    {
      revisions := revisions + [Revision(nextRevision, p, content, version)];
      nextRevision := nextRevision + 1;
    }

    method CreatePage(space: string, slug: string, title: string, content: string) returns (ok: bool)
      modifies this
      ensures (Now(), ok) == Step(old(Now()), Create(space, slug, title, content))
    {
      if SlugTaken(pages, space, slug) { return false; }
      var id := nextPage;
      nextPage := nextPage + 1;
      pages := pages[id := Page(space, slug, title, content, 1)];
      CreateRevision(id, content, 1);
      return true;
    }

    method UpdatePage(id: PageId, title: Option<string>, content: Option<string>, changeNote: Option<string>)
      returns (ok: bool)
      modifies this
      ensures (Now(), ok) == Step(old(Now()), Update(id, title, content, changeNote))
    {
      if id !in pages { return false; }
      if changeNote.Some? { return false; }
      var page := pages[id];
      var newVersion := page.version + 1;
      page := page.(version := newVersion);
      if title.Some? { page := page.(title := title.value); }
      if content.Some? { page := page.(content := content.value); }
      pages := pages[id := page];
      if content.Some? && content.value != "" {
        CreateRevision(id, content.value, newVersion);
      }
      return true;
    }

    method RevertToRevision(id: PageId, revision: RevisionId) returns (ok: bool)
      modifies this
      ensures (Now(), ok) == Step(old(Now()), Revert(id, revision))
      ensures ok ==> id in old(pages) && exists r ::
                var was := old(pages);
                r in old(revisions) && r.id == revision
                && pages == was[id := was[id].(content := r.content, version := was[id].version + 1)]
    {
      FindRevisionIs(revisions, revision);
      var r := FindRevision(revisions, revision);
      if r.None? { return false; }
      if id !in pages { return false; }
      var newVersion := pages[id].version + 1;
      pages := pages[id := pages[id].(content := r.value.content, version := newVersion)];
      CreateRevision(id, r.value.content, newVersion);
      return true;
    }

    method DeletePage(id: PageId) returns (ok: bool)
      modifies this
      ensures (Now(), ok) == Step(old(Now()), Delete(id))
    {
      if id !in pages { return false; }
      revisions := WithoutPage(revisions, id);
      pages := pages - {id};
      return true;
    }
  }

  // ---------- what the log keeps ----------

  lemma RevisionsAppend(revisions: seq<Revision>, r: Revision, p: PageId)
    ensures RevisionsOf(revisions + [r], p) == if r.page == p then RevisionsOf(revisions, p) + [r]
              else RevisionsOf(revisions, p)
  {
    assert (revisions + [r])[..|revisions + [r]| - 1] == revisions;
  }

  lemma {:induction false} RevisionsWithout(revisions: seq<Revision>, q: PageId, p: PageId)
    ensures RevisionsOf(WithoutPage(revisions, q), p) == if p == q then [] else RevisionsOf(revisions, p)
  {
    if revisions != [] {
      var init, r := revisions[..|revisions| - 1], revisions[|revisions| - 1];
      RevisionsWithout(init, q, p);
      RevisionsAppend(WithoutPage(init, q), r, p);
    }
  }

  /** Versions strictly increase from 1 and do not pass the page's own version. */
  ghost predicate Versioned(rs: seq<Revision>, version: int) {
    && rs != [] && rs[0].version == 1
    && (forall i, j | 0 <= i < j < |rs| :: rs[i].version < rs[j].version)
    && rs[|rs| - 1].version <= version
  }

  ghost predicate Kept(st: State) {
    && (forall p | p in st.pages :: p < st.nextPage && Versioned(RevisionsOf(st.revisions, p), st.pages[p].version))
    && (forall p | p >= st.nextPage :: RevisionsOf(st.revisions, p) == [])
  }

  /** The call does not blank a page: an accepted update with empty content meets an already empty page. */
  predicate NoBlanking(st: State, op: Op) {
    op.Update? && op.id in st.pages && op.changeNote.None? && op.content == Some("") ==> st.pages[op.id].content == ""
  }

  /** What one call does to one surviving page: its row, and the revisions it has. */
  lemma {:induction false} StepPage(st: State, op: Op, p: PageId)
    requires p in Step(st, op).0.pages && st.nextPage !in st.pages
    ensures var st' := Step(st, op).0;
            var rs, rs' := RevisionsOf(st.revisions, p), RevisionsOf(st'.revisions, p);
            && (rs' == rs + [Revision(st.nextRevision, p, st'.pages[p].content, st'.pages[p].version)]
                || (rs' == rs && p in st.pages))
            && (p !in st.pages ==> p == st.nextPage < st'.nextPage && st'.pages[p].version == 1)
            && (p in st.pages ==>
                  (rs' == rs && st'.pages[p] == st.pages[p]) || st'.pages[p].version == st.pages[p].version + 1)
            && (p in st.pages && rs' == rs ==>
                  (st'.pages[p].content != st.pages[p].content <==> !NoBlanking(st, op) && op.id == p))
  {
    match op
    case Create(space, slug, title, content) =>
      RevisionsAppend(st.revisions, Revision(st.nextRevision, st.nextPage, content, 1), p);
    case Update(id, _, _, _) =>
      if id in st.pages {
        var page := Step(st, op).0.pages[id];
        RevisionsAppend(st.revisions, Revision(st.nextRevision, id, page.content, page.version), p);
      }
    case Revert(id, _) =>
      if id in st.pages {
        var page := Step(st, op).0.pages[id];
        RevisionsAppend(st.revisions, Revision(st.nextRevision, id, page.content, page.version), p);
      }
    case Delete(id) => RevisionsWithout(st.revisions, id, p);
  }

  /** What one call does to the revisions of an id not yet handed out: nothing. */
  lemma {:induction false} StepBeyond(st: State, op: Op, p: PageId)
    requires Kept(st) && p >= Step(st, op).0.nextPage
    ensures RevisionsOf(Step(st, op).0.revisions, p) == RevisionsOf(st.revisions, p) && p >= st.nextPage
  {
    var st' := Step(st, op).0;
    match op
    case Delete(id) => RevisionsWithout(st.revisions, id, p);
    case _ =>
      if |st'.revisions| > |st.revisions| {
        var r := st'.revisions[|st.revisions|];
        assert st'.revisions == st.revisions + [r];
        RevisionsAppend(st.revisions, r, p);
      }
  }

  lemma {:induction false} StepVersioned(st: State, op: Op, p: PageId)
    requires Kept(st) && p in Step(st, op).0.pages
    ensures var st' := Step(st, op).0;
            p < st'.nextPage && Versioned(RevisionsOf(st'.revisions, p), st'.pages[p].version)
  {
    var st' := Step(st, op).0;
    assert st.nextPage !in st.pages;
    StepPage(st, op, p);
    var rs, version := RevisionsOf(st.revisions, p), st'.pages[p].version;
    VersionedNext(rs, Revision(st.nextRevision, p, st'.pages[p].content, version), if rs == [] then 0 else version - 1);
  }

  lemma VersionedNext(rs: seq<Revision>, r: Revision, version: int)
    requires r.version == version + 1
    ensures rs == [] && version == 0 ==> Versioned(rs + [r], r.version)
    ensures Versioned(rs, version) ==> Versioned(rs + [r], r.version) && Versioned(rs, version + 1)
  {
  }

  /** In every reachable state, revision versions strictly increase and never run ahead of their page. */
  lemma {:induction false} StepKept(st: State, op: Op)
    requires Kept(st)
    ensures Kept(Step(st, op).0)
  {
    var st' := Step(st, op).0;
    forall p | p in st'.pages
      ensures p < st'.nextPage && Versioned(RevisionsOf(st'.revisions, p), st'.pages[p].version)
    {
      StepVersioned(st, op, p);
    }
    forall p | p >= st'.nextPage ensures RevisionsOf(st'.revisions, p) == [] {
      StepBeyond(st, op, p);
    }
  }

  /** No call alters or drops a revision of a page that survives it, and versions only grow. */
  lemma {:induction false} StepExtends(st: State, op: Op, p: PageId)
    requires Kept(st) && p in st.pages && p in Step(st, op).0.pages
    ensures var st' := Step(st, op).0;
            var rs, rs' := RevisionsOf(st.revisions, p), RevisionsOf(st'.revisions, p);
            && rs <= rs' && st.pages[p].version <= st'.pages[p].version
            && forall i | |rs| <= i < |rs'| :: rs'[i].version > st.pages[p].version
  {
    StepPage(st, op, p);
  }

  lemma {:induction false} RunKept(ops: seq<Op>)
    ensures Kept(Run(ops))
  {
    if ops != [] {
      RunKept(ops[..|ops| - 1]);
      StepKept(Run(ops[..|ops| - 1]), ops[|ops| - 1]);
    }
  }

  lemma {:induction false} StepFresh(st: State, op: Op, p: PageId)
    requires Kept(st) && p < st.nextPage && p in Step(st, op).0.pages
    ensures p in st.pages && p < Step(st, op).0.nextPage
  {
  }

  lemma {:induction false} CounterGrows(ops: seq<Op>, n: nat)
    requires n <= |ops|
    ensures Run(ops[..n]).nextPage <= Run(ops).nextPage
    decreases |ops|
  {
    if n < |ops| {
      var before := ops[..|ops| - 1];
      assert before[..n] == ops[..n];
      CounterGrows(before, n);
    } else {
      assert ops[..n] == ops;
    }
  }

  /**
   Over any stretch of a run, the revisions a surviving page had stay where they were; new ones have later
   versions.
   */
  lemma {:induction false} RunExtends(ops: seq<Op>, n: nat, p: PageId)
    requires n <= |ops| && p in Run(ops[..n]).pages && p in Run(ops).pages
    ensures var st, st' := Run(ops[..n]), Run(ops);
            var rs, rs' := RevisionsOf(st.revisions, p), RevisionsOf(st'.revisions, p);
            && rs <= rs' && st.pages[p].version <= st'.pages[p].version
            && forall i | |rs| <= i < |rs'| :: rs'[i].version > st.pages[p].version
    decreases |ops|
  {
    if n == |ops| {
      assert ops[..n] == ops;
    } else {
      var before, op := ops[..|ops| - 1], ops[|ops| - 1];
      assert before[..n] == ops[..n];
      RunKept(ops[..n]);
      RunKept(before);
      CounterGrows(before, n);
      StepFresh(Run(before), op, p);
      RunExtends(before, n, p);
      StepExtends(Run(before), op, p);
    }
  }

  // ---------- time travel ----------

  /** Revision `i` of `rs` is the one with the greatest version not above `v`. */
  ghost predicate IsGreatest(rs: seq<Revision>, v: int, i: int) {
    && 0 <= i < |rs| && rs[i].version <= v
    && forall j | 0 <= j < |rs| && rs[j].version <= v :: rs[j].version <= rs[i].version
  }

  /** The greatest revision not above version `v` exists, and has content `c`. */
  ghost predicate ReadsBack(rs: seq<Revision>, v: int, c: string) {
    && (exists i :: IsGreatest(rs, v, i))
    && (forall i | IsGreatest(rs, v, i) :: rs[i].content == c)
  }

  /** Every content a page has had, at each version it has had, can be read back from the log now. */
  ghost predicate TimeTravel(ops: seq<Op>) {
    forall n, p | 0 <= n <= |ops| && p in Run(ops[..n]).pages && p in Run(ops).pages ::
      var past := Run(ops[..n]).pages[p];
      ReadsBack(RevisionsOf(Run(ops).revisions, p), past.version, past.content)
  }

  ghost predicate NeverBlanks(ops: seq<Op>) {
    forall n | 0 <= n < |ops| :: NoBlanking(Run(ops[..n]), ops[n])
  }

  /** Every page's content is that of its latest revision. */
  ghost predicate Current(st: State) {
    forall p | p in st.pages :: CurrentPage(st, p)
  }

  predicate CurrentPage(st: State, p: PageId)
    requires p in st.pages
  {
    var rs := RevisionsOf(st.revisions, p);
    rs != [] && rs[|rs| - 1].content == st.pages[p].content
  }

  /** A call keeps contents and latest revisions together exactly when it does not blank a page. */
  lemma {:induction false} StepCurrentExactly(st: State, op: Op)
    requires Kept(st) && Current(st)
    ensures Current(Step(st, op).0) <==> NoBlanking(st, op)
  {
    var st' := Step(st, op).0;
    forall p | p in st'.pages
      ensures CurrentPage(st', p) <==> NoBlanking(st, op) || op.id != p
    {
      StepPage(st, op, p);
      assert p in st.pages ==> CurrentPage(st, p);
    }
    if !NoBlanking(st, op) {
      assert op.id in st'.pages && !CurrentPage(st', op.id);
    }
  }

  lemma {:induction false} PrefixNeverBlanks(ops: seq<Op>, n: nat)
    requires n <= |ops| && NeverBlanks(ops)
    ensures NeverBlanks(ops[..n])
  {
    forall k | 0 <= k < n ensures NoBlanking(Run(ops[..n][..k]), ops[..n][k]) {
      assert ops[..n][..k] == ops[..k];
    }
  }

  lemma {:induction false} RunCurrent(ops: seq<Op>)
    requires NeverBlanks(ops)
    ensures Current(Run(ops))
  {
    if ops != [] {
      var n := |ops| - 1;
      PrefixNeverBlanks(ops, n);
      RunCurrent(ops[..n]);
      RunKept(ops[..n]);
      StepCurrentExactly(Run(ops[..n]), ops[n]);
    }
  }

  /** Later revisions do not change what is read back for an earlier version. */
  lemma {:induction false} LatestReadsBack(rs: seq<Revision>, rs': seq<Revision>, v: int)
    requires Versioned(rs, v) && rs <= rs'
    requires forall i | |rs| <= i < |rs'| :: rs'[i].version > v
    ensures ReadsBack(rs', v, rs[|rs| - 1].content)
  {
    var last := |rs| - 1;
    forall j | 0 <= j < |rs'| && rs'[j].version <= v ensures j <= last && rs'[j].version <= rs'[last].version {
    }
    assert IsGreatest(rs', v, last);
    forall i | IsGreatest(rs', v, i) ensures i == last {
      assert rs'[last].version <= rs'[i].version;
    }
  }

  /** As long as no call blanks a page, every past content can be read back. */
  lemma {:induction false} TimeTravelHolds(ops: seq<Op>)
    requires NeverBlanks(ops)
    ensures TimeTravel(ops)
  {
    forall n, p | 0 <= n <= |ops| && p in Run(ops[..n]).pages && p in Run(ops).pages
      ensures var past := Run(ops[..n]).pages[p];
              ReadsBack(RevisionsOf(Run(ops).revisions, p), past.version, past.content)
    {
      var st := Run(ops[..n]);
      PrefixNeverBlanks(ops, n);
      RunCurrent(ops[..n]);
      RunKept(ops[..n]);
      RunExtends(ops, n, p);
      LatestReadsBack(RevisionsOf(st.revisions, p), RevisionsOf(Run(ops).revisions, p), st.pages[p].version);
    }
  }

  /** The first call that blanks a page makes that page's own content unreadable from the log. */
  lemma {:induction false} BlankingBreaks(ops: seq<Op>, op: Op)
    requires NeverBlanks(ops) && !NoBlanking(Run(ops), op)
    ensures !TimeTravel(ops + [op])
  {
    var all := ops + [op];
    assert all[..|ops|] == ops && all[..|all|] == all;
    var st, st' := Run(ops), Run(all);
    RunCurrent(ops);
    RunKept(ops);
    var p := op.id;
    var rs := RevisionsOf(st.revisions, p);
    assert st'.revisions == st.revisions && st'.pages[p].content == "" && p in st'.pages;
    LatestReadsBack(rs, rs, st'.pages[p].version);
    var past := Run(all[..|all|]).pages[p];
    assert past.content == "" != rs[|rs| - 1].content;
    assert !ReadsBack(RevisionsOf(Run(all).revisions, p), past.version, past.content);
  }

  /**
   Time travel, exactly: at every moment of a run each content that a surviving page has had can be
   read back as its greatest revision not above that version, if and only if no call of the run
   blanks a page by an update with empty content.
   */
  lemma {:induction false} TimeTravelExactly(ops: seq<Op>)
    ensures (forall m | 0 <= m <= |ops| :: TimeTravel(ops[..m])) <==> NeverBlanks(ops)
  {
    if NeverBlanks(ops) {
      forall m | 0 <= m <= |ops| ensures TimeTravel(ops[..m]) {
        PrefixNeverBlanks(ops, m);
        TimeTravelHolds(ops[..m]);
      }
    } else {
      var m := BlankedAt(ops);
    }
  }

  lemma {:induction false} BlankedAt(ops: seq<Op>) returns (m: nat)
    requires !NeverBlanks(ops)
    ensures m <= |ops| && !TimeTravel(ops[..m])
  {
    var n := FirstBlanking(ops);
    m := n + 1;
    assert ops[..m] == ops[..n] + [ops[n]];
    BlankingBreaks(ops[..n], ops[n]);
  }

  lemma {:induction false} FirstBlanking(ops: seq<Op>) returns (n: nat)
    requires !NeverBlanks(ops)
    ensures n < |ops| && NeverBlanks(ops[..n]) && !NoBlanking(Run(ops[..n]), ops[n])
    decreases |ops|
  {
    n :| 0 <= n < |ops| && !NoBlanking(Run(ops[..n]), ops[n]);
    if !NeverBlanks(ops[..n]) {
      var k := n;
      n := FirstBlanking(ops[..k]);
      assert ops[..k][..n] == ops[..n];
    }
  }
}
