/**
  The part of the window that history moves act on: the open tabs, the split view, the files, and what
  restoring a recorded location does to them.
 */
module Workspaces {
  import opened Options

  type EditorId = nat
  type Text = string

  /** A hibernated tab has given its text up; restoring it reads the file again. */
  datatype Doc = Doc(path: string, text: Text, modified: bool, hibernated: bool)

  /** The split view is an editor of its own that shows the document of one tab. */
  datatype Split = Split(view: EditorId, source: EditorId)

  /**
    `order` is the tab bar from left to right, `others` counts its diff views, and a file that is there
    but cannot be read has no text. Editors are numbered from `next`, so a number is never used again.
   */
  datatype Workspace = Workspace(
    docs: map<EditorId, Doc>, order: seq<EditorId>, others: nat, split: Option<Split>,
    files: Files, next: EditorId)

  /** `editor` is None once the editor has been destroyed: the source keeps a guarded pointer. */
  datatype Location = Location(editor: Option<EditorId>, filePath: string, position: int, line: int)

  const NOWHERE: Location := Location(None, "", 0, 0)

  predicate EndsLine(text: Text, i: nat)
    requires i < |text|
  {
    text[i] == '\n' || (text[i] == '\r' && !(i + 1 < |text| && text[i + 1] == '\n'))
  }

  /** The number of the line the caret stands in, from one. */
  function LineOf(text: Text, position: nat): nat
    requires position <= |text|
  {
    if position == 0 then 1 else LineOf(text, position - 1) + if EndsLine(text, position - 1) then 1 else 0
  }

  function Clamped(position: int, text: Text): nat {
    if position < 0 then 0 else if position > |text| then |text| else position
  }

  /** `locationOf` with the caret put at `position`, which stays inside the text. */
  function LocationIn(id: EditorId, d: Doc, position: int): Location {
    var p := Clamped(position, d.text);
    Location(Some(id), d.path, p, LineOf(d.text, p))
  }

  // ---------- where a location leads ----------

  predicate SplitShows(w: Workspace, l: Location) {
    && l.editor.Some? && w.split.Some? && l.editor.value == w.split.value.view
    && w.split.value.source in w.docs && w.docs[w.split.value.source].path == l.filePath
  }

  predicate IsAvailable(w: Workspace, l: Location) {
    || (l.editor.Some? && l.editor.value in w.docs)
    || (SplitShows(w, l) && l.filePath != "")
    || (l.filePath != "" && l.filePath in w.files)
  }

  /** The leftmost tab that shows `path`. */
  function FirstShowing(docs: map<EditorId, Doc>, order: seq<EditorId>, path: string): (found: Option<EditorId>)
    ensures found.Some? ==> found.value in docs && docs[found.value].path == path
  {
    if order == [] then None
    else if order[0] in docs && docs[order[0]].path == path then Some(order[0])
    else FirstShowing(docs, order[1..], path)
  }

  lemma {:induction false} NoTabShows(docs: map<EditorId, Doc>, order: seq<EditorId>, path: string)
    ensures FirstShowing(docs, order, path).None? <==> forall id | id in order && id in docs :: docs[id].path != path
  {
    if order != [] {
      NoTabShows(docs, order[1..], path);
    }
  }

  datatype Aim = InSplit | InTab(id: EditorId) | Reopen(id: EditorId) | Open | Nowhere

  function AimOf(w: Workspace, l: Location): (aim: Aim)
    ensures aim.InTab? || aim.Reopen? ==> aim.id in w.docs
  {
    if SplitShows(w, l) then InSplit
    else if l.editor.Some? && l.editor.value in w.docs then InTab(l.editor.value)
    else if l.filePath == "" then Nowhere
    else match FirstShowing(w.docs, w.order, l.filePath)
      case Some(id) => Reopen(id)
      case None => Open
  }

  type Files = map<string, Option<Text>>

  function Readable(files: Files, path: string): Option<Text> {
    if path in files then files[path] else None
  }

  // ---------- what restoring does ----------

  /** A hibernated tab reads its file when it becomes current; it stays hibernated when that fails. */
  function Woken(files: Files, d: Doc): Doc {
    var text := Readable(files, d.path);
    if d.hibernated && text.Some? then d.(text := text.value, hibernated := false) else d
  }

  /** Opening a file that a tab shows already reads it again, unless the tab holds unsaved text. */
  function Reread(files: Files, d: Doc): Doc {
    var text := Readable(files, d.path);
    if d.path != "" && !d.modified && text.Some? then d.(text := text.value, hibernated := false) else d
  }

  function WithDoc(w: Workspace, id: EditorId, d: Doc): Workspace {
    w.(docs := w.docs[id := d])
  }

  predicate CanRest(w: Workspace, active: EditorId, id: EditorId)
    requires id in w.docs
  {
    && id != active && !w.docs[id].hibernated && w.docs[id].path != "" && !w.docs[id].modified
    && !(w.split.Some? && w.split.value.source == id)
  }

  /** Making a tab current lets the tab policy release others; `naps` is any choice it makes. */
  function Rested(w: Workspace, active: EditorId, naps: set<EditorId>): (w': Workspace)
    ensures w'.docs.Keys == w.docs.Keys
  {
    w.(docs := map id | id in w.docs ::
         if id in naps && CanRest(w, active, id) then w.docs[id].(text := "", hibernated := true) else w.docs[id])
  }

  /** The window with nothing in it but one new, untouched document. */
  predicate Pristine(w: Workspace) {
    && w.others == 0 && |w.order| == 1 && w.order[0] in w.docs
    && w.docs[w.order[0]].path == "" && !w.docs[w.order[0]].modified
  }

  /** A file opens in a tab of its own, which replaces a pristine document. */
  function WithTab(w: Workspace, path: string, text: Text): (w': Workspace)
    ensures w.next in w'.docs && w'.docs[w.next] == Doc(path, text, false, false)
  {
    var d := Doc(path, text, false, false);
    if Pristine(w) then
      var gone := w.order[0];
      w.(docs := map[w.next := d], order := [w.next], next := w.next + 1,
         split := if w.split.Some? && w.split.value.source == gone then None else w.split)
    else
      w.(docs := w.docs[w.next := d], order := w.order + [w.next], next := w.next + 1)
  }

  /** `active` is where the caret is afterwards, None when the current tab has no text to be in. */
  datatype Outcome = Outcome(workspace: Workspace, landed: Option<Location>, active: Option<Location>)

  function Shown(w: Workspace, id: EditorId, position: int, naps: set<EditorId>): Outcome
    requires id in w.docs
  {
    if w.docs[id].hibernated then Outcome(w, None, None)
    else
      var landed := LocationIn(id, w.docs[id], position);
      Outcome(Rested(w, id, naps), Some(landed), Some(landed))
  }

  function Restore(w: Workspace, l: Location, naps: set<EditorId>, active: Option<Location>): Outcome {
    match AimOf(w, l)
    case InSplit =>
      var landed := LocationIn(l.editor.value, w.docs[w.split.value.source], l.position);
      Outcome(w, Some(landed), Some(landed))
    case InTab(id) => Shown(WithDoc(w, id, Woken(w.files, w.docs[id])), id, l.position, naps)
    case Reopen(id) => Shown(WithDoc(w, id, Reread(w.files, w.docs[id])), id, l.position, naps)
    case Open =>
      var text := Readable(w.files, l.filePath);
      if text.None? then Outcome(w, None, active)
      else Shown(WithTab(w, l.filePath, text.value), w.next, l.position, naps)
    case Nowhere => Outcome(w, None, active)
  }

  // ---------- places ----------

  /** What the reader sees of a location; a reopened file is the same place in a new editor. */
  datatype Place =
    | InFile(path: string, position: int, line: int)
    | InEditor(id: Option<EditorId>, position: int, line: int)

  function PlaceOf(l: Location): Place {
    if l.filePath != "" then InFile(l.filePath, l.position, l.line) else InEditor(l.editor, l.position, l.line)
  }

  datatype Page = Page(path: string, text: Text)

  function PageOf(d: Doc): Option<Page> {
    if d.hibernated then None else Some(Page(d.path, d.text))
  }

  /** The document that restoring `l` brings up. */
  function PageAt(w: Workspace, l: Location): Option<Page> {
    match AimOf(w, l)
    case InSplit => PageOf(w.docs[w.split.value.source])
    case InTab(id) => PageOf(Woken(w.files, w.docs[id]))
    case Reopen(id) => PageOf(Reread(w.files, w.docs[id]))
    case Open => (match Readable(w.files, l.filePath) case Some(text) => Some(Page(l.filePath, text)) case None => None)
    case Nowhere => None
  }

  /** The entry still says where it leads: same file, position inside the text, same line. */
  predicate Unchanged(w: Workspace, l: Location) {
    IsAvailable(w, l) &&
    var page := PageAt(w, l);
    && page.Some? && page.value.path == l.filePath && 0 <= l.position <= |page.value.text|
    && l.line == LineOf(page.value.text, l.position)
  }

  /** `a` is where the caret of an editor on the screen stands. */
  predicate Current(w: Workspace, a: Location) {
    a.editor.Some? &&
    var id := a.editor.value;
    if id in w.docs then !w.docs[id].hibernated && a == LocationIn(id, w.docs[id], a.position)
    else
      && w.split.Some? && id == w.split.value.view && w.split.value.source in w.docs
      && a == LocationIn(id, w.docs[w.split.value.source], a.position)
  }

  // ---------- what always holds of a window ----------

  ghost predicate Valid(w: Workspace) {
    && (forall id :: id in w.order <==> id in w.docs)
    && (forall id | id in w.docs :: id < w.next)
    && (forall id | id in w.docs && w.docs[id].hibernated :: w.docs[id].path != "" && !w.docs[id].modified)
    && (w.split.Some? ==>
          var s := w.split.value;
          s.view < w.next && s.view !in w.docs && s.source in w.docs && !w.docs[s.source].hibernated)
  }

  /** A file shown without unsaved text is on disk as shown. */
  predicate DocInSync(files: Files, d: Doc) {
    d.path != "" && !d.modified ==>
      var text := Readable(files, d.path);
      text.Some? && (!d.hibernated ==> text.value == d.text)
  }

  /** The texts have not changed underneath the window. */
  ghost predicate InSync(w: Workspace) {
    forall id | id in w.docs :: DocInSync(w.files, w.docs[id])
  }

  predicate Known(w: Workspace, l: Location) {
    l.editor.Some? ==> l.editor.value < w.next
  }

  lemma WithDocIsValid(w: Workspace, id: EditorId)
    requires Valid(w) && id in w.docs
    ensures Valid(WithDoc(w, id, Woken(w.files, w.docs[id]))) && Valid(WithDoc(w, id, Reread(w.files, w.docs[id])))
  {
  }

  lemma RestedIsValid(w: Workspace, active: EditorId, naps: set<EditorId>)
    requires Valid(w)
    ensures Valid(Rested(w, active, naps))
  {
  }

  lemma WithTabIsValid(w: Workspace, path: string, text: Text)
    requires Valid(w)
    ensures Valid(WithTab(w, path, text))
  {
    if Pristine(w) {
      assert w.split.Some? ==> w.split.value.source in w.order;
    } else {
      assert forall id :: id in w.order + [w.next] <==> id in w.order || id == w.next;
    }
  }

  lemma RestoreIsValid(w: Workspace, l: Location, naps: set<EditorId>, active: Option<Location>)
    requires Valid(w)
    ensures Valid(Restore(w, l, naps, active).workspace)
  {
    match AimOf(w, l)
    case InSplit =>
    case InTab(id) =>
      WithDocIsValid(w, id);
      RestedIsValid(WithDoc(w, id, Woken(w.files, w.docs[id])), id, naps);
    case Reopen(id) =>
      WithDocIsValid(w, id);
      RestedIsValid(WithDoc(w, id, Reread(w.files, w.docs[id])), id, naps);
    case Open =>
      var text := Readable(w.files, l.filePath);
      if text.Some? {
        WithTabIsValid(w, l.filePath, text.value);
        RestedIsValid(WithTab(w, l.filePath, text.value), w.next, naps);
      }
    case Nowhere =>
  }

  /** What restoring can do to the editors there are, and to which of them the caret can go. */
  ghost predicate Moves(w: Workspace, l: Location, active: Option<Location>, r: Outcome) {
    && w.next <= r.workspace.next
    && (forall id | id in r.workspace.docs :: id in w.docs || id == w.next)
    && (r.workspace.split == w.split || r.workspace.split.None?)
    && (r.active.Some? && r.active != active ==>
          var a := r.active.value;
          (a.editor.Some? && a.editor.value in r.workspace.docs)
          || (SplitShows(w, l) && a.editor == l.editor && a.filePath == l.filePath))
  }

  lemma ShownMoves(w: Workspace, w': Workspace, id: EditorId, l: Location,
                   naps: set<EditorId>, active: Option<Location>)
    requires id in w'.docs && w.next <= w'.next && (forall i | i in w'.docs :: i in w.docs || i == w.next)
    requires w'.split == w.split || w'.split.None?
    ensures Moves(w, l, active, Shown(w', id, l.position, naps))
  {
  }

  lemma RestoreMoves(w: Workspace, l: Location, naps: set<EditorId>, active: Option<Location>)
    ensures Moves(w, l, active, Restore(w, l, naps, active))
  {
    match AimOf(w, l)
    case InSplit =>
    case InTab(id) => ShownMoves(w, WithDoc(w, id, Woken(w.files, w.docs[id])), id, l, naps, active);
    case Reopen(id) => ShownMoves(w, WithDoc(w, id, Reread(w.files, w.docs[id])), id, l, naps, active);
    case Open =>
      var text := Readable(w.files, l.filePath);
      if text.Some? {
        ShownMoves(w, WithTab(w, l.filePath, text.value), w.next, l, naps, active);
      }
    case Nowhere =>
  }

  // ---------- where restoring lands ----------

  /** An available entry lands on the place it records if and only if it is unchanged. */
  lemma LandsWhereRecorded(w: Workspace, l: Location, naps: set<EditorId>, active: Option<Location>)
    requires Valid(w) && IsAvailable(w, l)
    ensures var r := Restore(w, l, naps, active);
            && (r.landed.Some? ==> r.active == r.landed)
            && (r.landed.Some? && PlaceOf(r.landed.value) == PlaceOf(l) <==> Unchanged(w, l))
  {
  }

  /** The landing is where the caret is in the window that results. */
  lemma LandingIsCurrent(w: Workspace, l: Location, naps: set<EditorId>, active: Option<Location>)
    requires Valid(w) && Unchanged(w, l)
    ensures var r := Restore(w, l, naps, active);
            && r.landed.Some? && r.landed == r.active
            && Current(r.workspace, r.landed.value) && IsAvailable(r.workspace, r.landed.value)
  {
    match AimOf(w, l)
    case InSplit =>
    case InTab(id) => ShownIsCurrent(WithDoc(w, id, Woken(w.files, w.docs[id])), id, l.position, naps);
    case Reopen(id) => ShownIsCurrent(WithDoc(w, id, Reread(w.files, w.docs[id])), id, l.position, naps);
    case Open => ShownIsCurrent(WithTab(w, l.filePath, w.files[l.filePath].value), w.next, l.position, naps);
    case Nowhere =>
  }

  lemma ShownIsCurrent(w: Workspace, id: EditorId, position: int, naps: set<EditorId>)
    requires id in w.docs && !w.docs[id].hibernated
    ensures var r := Shown(w, id, position, naps);
            && r.landed.Some? && r.landed == r.active
            && Current(r.workspace, r.landed.value) && IsAvailable(r.workspace, r.landed.value)
  {
  }

  lemma CurrentIsUnchanged(w: Workspace, a: Location)
    requires Valid(w) && Current(w, a) && IsAvailable(w, a)
    ensures Unchanged(w, a) && Known(w, a) && !AimOf(w, a).Open?
  {
  }

  // ---------- what restoring one entry does to the others ----------

  /** Restoring the entry throws a pristine document away. */
  predicate Discards(w: Workspace, l: Location) {
    Pristine(w) && AimOf(w, l).Open?
  }

  predicate AlikeAt(w: Workspace, w': Workspace, l: Location) {
    && IsAvailable(w', l) == IsAvailable(w, l) && PageAt(w', l) == PageAt(w, l)
    && (AimOf(w', l).Open? ==> AimOf(w, l).Open?)
  }

  /** To every location recorded so far the two windows offer the same. */
  ghost predicate Alike(w: Workspace, w': Workspace) {
    && w.next <= w'.next && (Pristine(w') ==> Pristine(w))
    && (forall l {:trigger AlikeAt(w, w', l)} | Known(w, l) :: AlikeAt(w, w', l))
  }

  lemma {:induction false} SamePaths(docs: map<EditorId, Doc>, docs': map<EditorId, Doc>,
                                          order: seq<EditorId>, path: string)
    requires docs.Keys == docs'.Keys && forall id | id in docs :: docs[id].path == docs'[id].path
    ensures FirstShowing(docs, order, path) == FirstShowing(docs', order, path)
  {
    if order != [] {
      SamePaths(docs, docs', order[1..], path);
    }
  }

  lemma {:induction false} OneMoreTab(docs: map<EditorId, Doc>, order: seq<EditorId>, id: EditorId,
                                           d: Doc, path: string)
    requires id !in docs && id !in order
    ensures FirstShowing(docs[id := d], order + [id], path)
            == if FirstShowing(docs, order, path).Some? then FirstShowing(docs, order, path)
               else if d.path == path then Some(id) else None
  {
    if order == [] {
      assert [id][1..] == [];
    } else {
      OneMoreTab(docs, order[1..], id, d, path);
      assert (order + [id])[1..] == order[1..] + [id];
    }
  }

  /** The two documents bring up the same text when their tab becomes current or their file is opened. */
  predicate SamePages(files: Files, d: Doc, d': Doc) {
    && d'.path == d.path && d'.modified == d.modified && DocInSync(files, d')
    && PageOf(Woken(files, d')) == PageOf(Woken(files, d)) && PageOf(Reread(files, d')) == PageOf(Reread(files, d))
  }

  /** `w'` differs from `w` in which tabs are hibernated and in nothing a location can see. */
  ghost predicate SameTabs(w: Workspace, w': Workspace) {
    && w'.docs.Keys == w.docs.Keys && w' == w.(docs := w'.docs)
    && (forall id | id in w.docs :: SamePages(w.files, w.docs[id], w'.docs[id]))
    && (w.split.Some? && w.split.value.source in w.docs ==>
          PageOf(w'.docs[w.split.value.source]) == PageOf(w.docs[w.split.value.source]))
  }

  lemma SameTabsAlike(w: Workspace, w': Workspace, l: Location)
    requires SameTabs(w, w')
    ensures AlikeAt(w, w', l) && InSync(w') && (Pristine(w') <==> Pristine(w))
  {
    SamePaths(w.docs, w'.docs, w.order, l.filePath);
    assert AimOf(w', l) == AimOf(w, l);
  }

  lemma SameTabsTwice(a: Workspace, b: Workspace, c: Workspace)
    requires SameTabs(a, b) && SameTabs(b, c)
    ensures SameTabs(a, c)
  {
  }

  lemma WokenSameTabs(w: Workspace, id: EditorId)
    requires Valid(w) && InSync(w) && id in w.docs
    ensures Reread(w.files, w.docs[id]) == Woken(w.files, w.docs[id])
    ensures SameTabs(w, WithDoc(w, id, Woken(w.files, w.docs[id])))
  {
    assert SamePages(w.files, w.docs[id], Woken(w.files, w.docs[id]));
  }

  lemma RestedSameTabs(w: Workspace, active: EditorId, naps: set<EditorId>)
    requires Valid(w) && InSync(w)
    ensures SameTabs(w, Rested(w, active, naps))
  {
    forall id | id in w.docs
      ensures SamePages(w.files, w.docs[id], Rested(w, active, naps).docs[id])
    {
    }
  }

  lemma WithTabAlike(w: Workspace, path: string, text: Text, l: Location)
    requires Valid(w) && !Pristine(w) && Known(w, l)
    requires path != "" && Readable(w.files, path) == Some(text) && FirstShowing(w.docs, w.order, path).None?
    ensures AlikeAt(w, WithTab(w, path, text), l)
  {
    OneMoreTab(w.docs, w.order, w.next, Doc(path, text, false, false), l.filePath);
  }

  lemma WithTabInSync(w: Workspace, path: string, text: Text)
    requires Valid(w) && InSync(w) && Readable(w.files, path) == Some(text)
    ensures InSync(WithTab(w, path, text))
  {
  }

  lemma ShownSameTabs(w: Workspace, id: EditorId, position: int, naps: set<EditorId>)
    requires Valid(w) && InSync(w) && id in w.docs
    ensures SameTabs(w, Shown(w, id, position, naps).workspace)
  {
    RestedSameTabs(w, id, naps);
  }

  /** Unless a file opens in a new tab, restoring only wakes and rests tabs. */
  lemma RestoreSameTabs(w: Workspace, t: Location, naps: set<EditorId>, active: Option<Location>)
    requires Valid(w) && InSync(w) && !AimOf(w, t).Open?
    ensures SameTabs(w, Restore(w, t, naps, active).workspace)
  {
    var aim := AimOf(w, t);
    if aim.InTab? || aim.Reopen? {
      var woken := WithDoc(w, aim.id, Woken(w.files, w.docs[aim.id]));
      WokenSameTabs(w, aim.id);
      WithDocIsValid(w, aim.id);
      SameTabsAlike(w, woken, t);
      ShownSameTabs(woken, aim.id, t.position, naps);
      SameTabsTwice(w, woken, Shown(woken, aim.id, t.position, naps).workspace);
    }
  }

  lemma OpeningAlike(w: Workspace, t: Location, naps: set<EditorId>, active: Option<Location>, l: Location)
    requires Valid(w) && InSync(w) && AimOf(w, t).Open? && !Pristine(w) && Known(w, l)
    ensures var w' := Restore(w, t, naps, active).workspace;
            AlikeAt(w, w', l) && InSync(w') && !Pristine(w')
  {
    var text := Readable(w.files, t.filePath);
    if text.Some? {
      var wider := WithTab(w, t.filePath, text.value);
      WithTabAlike(w, t.filePath, text.value, l);
      WithTabIsValid(w, t.filePath, text.value);
      WithTabInSync(w, t.filePath, text.value);
      ShownSameTabs(wider, w.next, t.position, naps);
      SameTabsAlike(wider, Shown(wider, w.next, t.position, naps).workspace, l);
    }
  }

  /**
    While the texts do not change and no pristine document is thrown away, restoring an entry leaves
    every recorded location as available as it was and leading to the same text.
   */
  lemma RestoreKeepsTheRest(w: Workspace, t: Location, naps: set<EditorId>, active: Option<Location>)
    requires Valid(w) && InSync(w) && !Discards(w, t)
    ensures var w' := Restore(w, t, naps, active).workspace;
            Valid(w') && InSync(w') && Alike(w, w')
  {
    var w' := Restore(w, t, naps, active).workspace;
    RestoreIsValid(w, t, naps, active);
    if !AimOf(w, t).Open? {
      RestoreSameTabs(w, t, naps, active);
    }
    forall l | Known(w, l)
      ensures AlikeAt(w, w', l) && InSync(w') && (Pristine(w') ==> Pristine(w))
    {
      if AimOf(w, t).Open? {
        OpeningAlike(w, t, naps, active, l);
      } else {
        SameTabsAlike(w, w', l);
      }
    }
    assert Known(w, NOWHERE);
  }

  lemma AlikeIsTransitive(a: Workspace, b: Workspace, c: Workspace)
    requires Alike(a, b) && Alike(b, c)
    ensures Alike(a, c)
  {
    forall l | Known(a, l)
      ensures AlikeAt(a, c, l)
    {
      assert Known(b, l) && AlikeAt(a, b, l) && AlikeAt(b, c, l);
    }
  }

  lemma AlikeKeepsUnchanged(w: Workspace, w': Workspace, l: Location)
    requires Alike(w, w') && Known(w, l)
    ensures Unchanged(w', l) == Unchanged(w, l) && (Discards(w', l) ==> Discards(w, l))
  {
    assert AlikeAt(w, w', l);
  }

  // ---------- lines, tabs and editors ----------

  /** A line feed ends a line, and so does a carriage return without one. */
  predicate LineEnd(text: Text, i: nat) {
    i < |text| &&
    (text[i] == '\n' || (text[i] == '\r' && (i == |text| - 1 || text[i + 1] != '\n')))
  }

  /** The line of a position is one more than the number of line ends before it. */
  lemma {:induction false} LineCountsEnds(text: Text, position: nat)
    requires position <= |text|
    ensures LineOf(text, position) == 1 + |set i | 0 <= i < position && LineEnd(text, i)|
  {
    if position > 0 {
      LineCountsEnds(text, position - 1);
      var fewer := set i | 0 <= i < position - 1 && LineEnd(text, i);
      var all := set i | 0 <= i < position && LineEnd(text, i);
      assert all == if EndsLine(text, position - 1) then fewer + {position - 1} else fewer;
    }
  }

  /** A position inside the text stays; one outside becomes the nearer end. */
  lemma PositionStaysInside(position: int, text: Text)
    ensures 0 <= position <= |text| ==> Clamped(position, text) == position
    ensures position < 0 ==> Clamped(position, text) == 0
    ensures position > |text| ==> Clamped(position, text) == |text|
  {
  }

  /** An entry is available while its tab is open, the split view still shows its file, or the file is there. */
  lemma AvailableMeans(w: Workspace, l: Location)
    ensures IsAvailable(w, l) <==>
            || (exists id | id in w.docs :: l.editor == Some(id))
            || (l.filePath != "" && l.filePath in w.files)
            || (l.filePath != "" && exists view: EditorId, source: EditorId | source in w.docs ::
                  w.split == Some(Split(view, source)) && l.editor == Some(view) && w.docs[source].path == l.filePath)
  {
    if w.split.Some? {
      assert w.split == Some(Split(w.split.value.view, w.split.value.source));
    }
  }

  lemma {:induction false} LeftmostShows(docs: map<EditorId, Doc>, order: seq<EditorId>, path: string)
    requires FirstShowing(docs, order, path).Some?
    ensures exists i | 0 <= i < |order| ::
              && FirstShowing(docs, order, path) == Some(order[i])
              && forall j | 0 <= j < i && order[j] in docs :: docs[order[j]].path != path
  {
    if !(order[0] in docs && docs[order[0]].path == path) {
      LeftmostShows(docs, order[1..], path);
      var i :| 0 <= i < |order[1..]| && FirstShowing(docs, order[1..], path) == Some(order[1..][i])
               && forall j | 0 <= j < i && order[1..][j] in docs :: docs[order[1..][j]].path != path;
      assert order[1..][i] == order[i + 1];
      forall j | 0 <= j < i + 1 && order[j] in docs
        ensures docs[order[j]].path != path
      {
        assert j > 0 ==> order[1..][j - 1] == order[j];
      }
    }
  }

  /** Restoring goes to the entry's own editor while that shows its file, else to a tab that does, else to a new one. */
  lemma LandsInEditor(w: Workspace, l: Location, naps: set<EditorId>, active: Option<Location>)
    ensures var r := Restore(w, l, naps, active);
            var own := l.editor.Some? && (l.editor.value in w.docs || SplitShows(w, l));
            r.landed.Some? ==>
              && (own ==> r.landed.value.editor == l.editor)
              && (!own ==> l.filePath != "" && r.landed.value.filePath == l.filePath)
              && (!own && FirstShowing(w.docs, w.order, l.filePath).Some? ==>
                    r.landed.value.editor == FirstShowing(w.docs, w.order, l.filePath))
              && (!own && FirstShowing(w.docs, w.order, l.filePath).None? ==> r.landed.value.editor == Some(w.next))
  {
  }

  /** Of the tabs chosen, all are released but the current one, the split view's source, and what is not on disk. */
  lemma RestingSpares(w: Workspace, active: EditorId, naps: set<EditorId>, id: EditorId)
    requires id in w.docs
    ensures var d := w.docs[id];
            var rests := id in naps && id != active && d.path != "" && !d.modified && !d.hibernated
                         && !(exists view: EditorId :: w.split == Some(Split(view, id)));
            && Rested(w, active, naps).docs[id] == (if rests then Doc(d.path, "", false, true) else d)
            && Rested(w, active, naps) == w.(docs := Rested(w, active, naps).docs)
  {
    if w.split.Some? && w.split.value.source == id {
      assert w.split == Some(Split(w.split.value.view, id));
    }
  }

  /** A file opens in a new tab at the end, in place of the window's only document when that is new and untouched. */
  lemma OpeningAddsTab(w: Workspace, path: string, text: Text)
    requires Valid(w)
    ensures var w', d := WithTab(w, path, text), Doc(path, text, false, false);
            var blank := w.others == 0 && |w.order| == 1 && var only := w.docs[w.order[0]];
                         only.path == "" && !only.modified;
            && w'.next == w.next + 1 && w'.files == w.files && w'.others == w.others
            && (blank ==> w'.docs == map[w.next := d] && w'.order == [w.next] && w'.split == None)
            && (!blank ==> w'.docs == w.docs[w.next := d] && w'.order == w.order + [w.next] && w'.split == w.split)
  {
    assert forall i | 0 <= i < |w.order| :: w.order[i] in w.docs;
    if |w.order| == 1 && w.split.Some? {
      assert w.split.value.source in w.order;
    }
  }
}
