/**
  The prototype's operation machine: one queued operation, acknowledged later against whatever the
  state has become, and the deletion guard that is evaluated again at that moment.
 */
module Journey {
  import opened Options

  datatype Key = Key(repo: string, tree: string)

  /** Conversation ids: the numbered ones come from the shared counter, the others are fixed names. */
  datatype ConvId = Named(name: string) | Draft(n: nat) | Fork(n: nat)

  datatype Record = Record(
    id: ConvId, title: string, turn: string, builder: bool, connection: string, available: bool, archived: bool,
    provider: string, settings: string, draft: string, latestPrompt: string, requestCount: nat, explicit: bool,
    forkedFrom: Option<ConvId>)

  datatype Scope = Scope(
    key: Key, selected: ConvId, archived: bool, deleted: bool, dirty: bool, created: bool,
    atlasBundles: set<nat>, conversations: map<ConvId, Record>)

  datatype Target = Worktree(key: Key) | Conversation(key: Key, id: ConvId)

  datatype Kind =
    | ForkConversation
    | NewConversation(tree: string, provider: string, settings: string)
    | Send(input: string, trimmed: string, suggestedTitle: string, previous: string)
    | Steer(input: string, previous: string)
    | Stop(previous: string)
    | Reconnect
    | Answer
    | SignIn
    | Confirm
    | Revoke(device: string)
    | Connection
    | Create(tree: string)
    | Archive(target: Target)
    | Restore(target: Target)
    | Delete(target: Target)

  datatype Operation = Operation(kind: Kind, scope: Key, conversation: ConvId, due: int, failed: bool, epoch: nat)

  datatype Demo = Demo(
    scopes: map<Key, Scope>, operation: Option<Operation>, next: nat,
    signedIn: bool, ticket: string, devices: seq<string>)

  const MAIN_TREE := "develop"
  const NEW_TITLE := "New conversation"
  const ATLAS_REQUEST := "Create an Atlas for this conversation."
  const ACTIVE_TURNS: set<string> :=
    {"running", "building", "question", "stopping", "steering", "answer-submitting", "answer-error"}

  predicate IsActiveTurn(r: Record) {
    r.turn in ACTIVE_TURNS
  }

  // ---------- the state the machine acts on ----------

  function MakeConversation(id: ConvId, title: string, turn: string): Record {
    Record(id, title, turn, false, "connected", true, false, "Codex", "", "", "", 0, false, None)
  }

  function Spaced(tree: string): string {
    seq(|tree|, i requires 0 <= i < |tree| => if tree[i] == '-' then ' ' else tree[i])
  }

  /** The conversations a worktree starts with. */
  function Seeded(key: Key): map<ConvId, Record> {
    var main := key.tree == MAIN_TREE;
    if key.repo == "api-service" then
      if main then map[Named("linux-build") := MakeConversation(Named("linux-build"), "Check the Linux build", "ready")]
      else map[]
    else if key.repo !in {"ketplus-desktop", "ketviet"} then map[]
    else if main then
      map[Named("navigation") := MakeConversation(Named("navigation"), "Refine navigation", "ready"),
          Named("startup") := MakeConversation(Named("startup"), "Review the startup flow", "running"),
          Named("atlas") := MakeConversation(Named("atlas"), "Atlas: Onboarding experience", "ready")]
    else
      map[Named("review") := MakeConversation(Named("review"), "Review " + Spaced(key.tree), "running"),
          Named("checks") := MakeConversation(Named("checks"), "Check this worktree", "ready")]
  }

  function NewScope(key: Key): Scope {
    var main := key.tree == MAIN_TREE;
    Scope(key,
          if key.repo == "api-service" && main then Named("linux-build")
          else if main then Named("navigation")
          else Named("review"),
          false, false, main && key.repo != "api-service", false, {}, Seeded(key))
  }

  function EnsureScope(d: Demo, key: Key): Demo {
    if key in d.scopes then d else d.(scopes := d.scopes[key := NewScope(key)])
  }

  function RecordAt(d: Demo, key: Key, id: ConvId): Option<Record> {
    if key in d.scopes && id in d.scopes[key].conversations then Some(d.scopes[key].conversations[id]) else None
  }

  function PutRecord(d: Demo, key: Key, id: ConvId, r: Record): Demo
    requires key in d.scopes
  {
    var s := d.scopes[key];
    d.(scopes := d.scopes[key := s.(conversations := s.conversations[id := r])])
  }

  // ---------- the guard ----------

  datatype Blocker = Missing | AlreadyRemoved | ActiveTurn | MainWorktree | ActiveTurnsInside | Dirty

  predicate HasActiveTurn(s: Scope) {
    exists id | id in s.conversations :: IsActiveTurn(s.conversations[id])
  }

  function DeletionBlocker(d: Demo, target: Target): Option<Blocker> {
    match target
    case Conversation(key, id) =>
      var r := RecordAt(d, key, id);
      if r.None? then Some(Missing) else if IsActiveTurn(r.value) then Some(ActiveTurn) else None
    case Worktree(key) =>
      if key !in d.scopes then Some(Missing)
      else
        var s := d.scopes[key];
        if s.deleted then Some(AlreadyRemoved)
        else if s.key.tree == MAIN_TREE then Some(MainWorktree)
        else if HasActiveTurn(s) then Some(ActiveTurnsInside)
        else if s.dirty then Some(Dirty)
        else None
  }

  // ---------- acknowledgments ----------

  /** Where a fork or a new conversation lands, and under which id. */
  function Destination(d: Demo, op: Operation): (Key, ConvId)
    requires op.kind.ForkConversation? || op.kind.NewConversation?
  {
    if op.kind.ForkConversation? then (op.scope, Fork(d.next))
    else (Key(op.scope.repo, op.kind.tree), Draft(d.next))
  }

  predicate CanFork(r: Record) {
    !IsActiveTurn(r) && r.provider != "Cursor"
  }

  /** The acknowledgment of a fork or a new conversation goes ahead. */
  predicate Creates(d: Demo, op: Operation)
    requires op.kind.ForkConversation? || op.kind.NewConversation?
  {
    var record := RecordAt(d, op.scope, op.conversation);
    !op.failed && record.Some? && (op.kind.ForkConversation? ==> CanFork(record.value))
  }

  function AcknowledgeCreation(d: Demo, op: Operation): Demo
    requires op.kind.ForkConversation? || op.kind.NewConversation?
  {
    var record := RecordAt(d, op.scope, op.conversation);
    if !Creates(d, op) then d
    else
      var (key, id) := Destination(d, op);
      var existing := if key in d.scopes then d.scopes[key] else NewScope(key).(conversations := map[]);
      var copy :=
        if op.kind.ForkConversation?
        then record.value.(title := record.value.title + " (fork)", forkedFrom := Some(record.value.id))
        else MakeConversation(id, NEW_TITLE, "empty").(provider := op.kind.provider, settings := op.kind.settings);
      var created := copy.(id := id, explicit := true, requestCount := 0, draft := "");
      d.(next := d.next + 1,
         scopes := d.scopes[key := existing.(selected := id, conversations := existing.conversations[id := created])])
  }

  /** Sends, steers, stops, reconnections and answers change the conversation they were queued for. */
  function AcknowledgeTurn(d: Demo, op: Operation, r: Record): (Record, bool) {
    match op.kind
    case Send(input, trimmed, suggested, previous) =>
      if op.failed then (r.(turn := previous), false)
      else
        (r.(turn := if r.builder then "building" else "running",
            title := if r.requestCount == 0 && r.title == NEW_TITLE then suggested else r.title,
            requestCount := r.requestCount + 1, latestPrompt := input,
            draft := if r.draft == input then "" else r.draft),
         trimmed == ATLAS_REQUEST)
    case Steer(input, previous) =>
      if op.failed then (r.(turn := previous), false)
      else
        (r.(turn := if r.builder then "building" else "running", latestPrompt := input,
            draft := if r.draft == input then "" else r.draft),
         false)
    case Stop(previous) => (r.(turn := if op.failed then previous else "stopped"), false)
    case Reconnect => (r.(connection := if op.failed then "offline" else "connected"), false)
    case Answer => (r.(turn := if op.failed then "answer-error" else "running"), false)
    case _ => (r, false)
  }

  function Without(devices: seq<string>, device: string): seq<string> {
    if devices == [] then []
    else
      var last := devices[|devices| - 1];
      Without(devices[..|devices| - 1], device) + if last != device then [last] else []
  }

  function Retired(conversations: map<ConvId, Record>): map<ConvId, Record> {
    map id | id in conversations :: conversations[id].(archived := true, available := false)
  }

  function SetArchived(d: Demo, target: Target, archived: bool): Demo {
    match target
    case Worktree(key) =>
      if key in d.scopes then d.(scopes := d.scopes[key := d.scopes[key].(archived := archived)]) else d
    case Conversation(key, id) =>
      var r := RecordAt(d, key, id);
      if r.Some? then PutRecord(d, key, id, r.value.(archived := archived)) else d
  }

  function Remove(d: Demo, target: Target): Demo
    requires target.key in d.scopes
  {
    var s := d.scopes[target.key];
    match target
    case Worktree(key) =>
      d.(scopes := d.scopes[key := s.(deleted := true, archived := true, conversations := Retired(s.conversations))])
    case Conversation(key, id) =>
      d.(scopes := d.scopes[key := s.(conversations := s.conversations - {id})])
  }

  predicate TargetExists(d: Demo, target: Target) {
    match target
    case Worktree(key) => key in d.scopes
    case Conversation(key, id) => RecordAt(d, key, id).Some?
  }

  function TurnAcknowledged(d: Demo, op: Operation): Demo {
    var r := RecordAt(d, op.scope, op.conversation);
    if r.None? then d
    else
      var (r', atlas) := AcknowledgeTurn(d, op, r.value);
      var e := PutRecord(d, op.scope, op.conversation, r');
      if !atlas then e
      else
        var s := e.scopes[op.scope];
        e.(next := e.next + 1, scopes := e.scopes[op.scope := s.(atlasBundles := s.atlasBundles + {e.next})])
  }

  /** A scope that is not marked created is marked and starts over with one empty draft. */
  function Created(d: Demo, key: Key): Demo {
    var e := EnsureScope(d, key);
    var s := e.scopes[key];
    if s.created then e
    else
      var draft := MakeConversation(Named("draft"), NEW_TITLE, "empty");
      e.(scopes := e.scopes[key :=
           s.(created := true, selected := Named("draft"), conversations := map[Named("draft") := draft])])
  }

  /** `here` is the repository of the page that receives the acknowledgment. */
  function Acknowledge(d: Demo, op: Operation, here: string): Demo {
    match op.kind
    case ForkConversation => AcknowledgeCreation(d, op)
    case NewConversation(_, _, _) => AcknowledgeCreation(d, op)
    case SignIn => d.(signedIn := !op.failed)
    case Confirm =>
      if op.failed || !d.signedIn || d.ticket != "claimed" then d
      else d.(ticket := "approved", devices := if "pixel" in d.devices then d.devices else d.devices + ["pixel"])
    case Revoke(device) => if op.failed then d else d.(devices := Without(d.devices, device))
    case Connection => d
    case Create(tree) =>
      if op.failed then d else Created(d, Key(here, tree))
    case Archive(target) => if op.failed then d else SetArchived(d, target, true)
    case Restore(target) =>
      if op.failed || !TargetExists(d, target) || d.scopes[target.key].deleted then d
      else SetArchived(d, target, false)
    case Delete(target) =>
      if op.failed || DeletionBlocker(d, target).Some? then d else Remove(d, target)
    case _ => TurnAcknowledged(d, op)
  }

  function Advance(d: Demo, now: int, here: string): (Demo, bool) {
    if d.operation.None? || d.operation.value.due > now then (d, false)
    else (Acknowledge(d.(operation := None), d.operation.value, here), true)
  }

  /** Queueing overwrites whatever operation was still waiting. */
  function Queue(d: Demo, kind: Kind, scope: Key, conversation: ConvId, now: int, failed: bool): Demo {
    d.(operation := Some(Operation(kind, scope, conversation, now + 900, failed, d.next)), next := d.next + 1)
  }

  // ---------- the store, updated in place ----------

  class DemoStore {
    var scopes: map<Key, Scope>
    var operation: Option<Operation>
    var next: nat
    var signedIn: bool
    var ticket: string
    var devices: seq<string>

    function View(): Demo
      reads this
    {
      Demo(scopes, operation, next, signedIn, ticket, devices)
    }

    constructor ()
      ensures View() == Fresh()
    {
      scopes, operation, next := map[], None, 1;
      signedIn, ticket, devices := false, "none", ["iphone"];
    }

    method QueueOperation(kind: Kind, scope: Key, conversation: ConvId, now: int, failed: bool)
      modifies this`operation, this`next
      ensures View() == Queue(old(View()), kind, scope, conversation, now, failed)
    {
      operation := Some(Operation(kind, scope, conversation, now + 900, failed, next));
      next := next + 1;
    }

    method AdvanceOperation(now: int, here: string) returns (advanced: bool)
      modifies this
      ensures (View(), advanced) == Advance(old(View()), now, here)
    {
      if operation.None? || operation.value.due > now {
        return false;
      }
      var op := operation.value;
      operation := None;
      match op.kind {
        case ForkConversation => CreateRecord(op);
        case NewConversation(_, _, _) => CreateRecord(op);
        case SignIn => ChangeAccount(op);
        case Confirm => ChangeAccount(op);
        case Revoke(device) => ChangeAccount(op);
        case Connection =>
        case Create(tree) =>
          if !op.failed {
            CreateWorktree(Key(here, tree));
          }
        case Archive(_) => ChangeResource(op);
        case Restore(_) => ChangeResource(op);
        case Delete(_) => ChangeResource(op);
        case _ => ChangeTurn(op);
      }
      return true;
    }

    method ChangeAccount(op: Operation)
      requires op.kind.SignIn? || op.kind.Confirm? || op.kind.Revoke?
      modifies this`signedIn, this`ticket, this`devices
      ensures View() == Acknowledge(old(View()), op, "")
    {
      match op.kind {
        case SignIn => signedIn := !op.failed;
        case Confirm =>
          if !op.failed && signedIn && ticket == "claimed" {
            if "pixel" !in devices {
              devices := devices + ["pixel"];
            }
            ticket := "approved";
          }
        case Revoke(device) =>
          if !op.failed {
            devices := Without(devices, device);
          }
      }
    }

    method CreateRecord(op: Operation)
      requires op.kind.ForkConversation? || op.kind.NewConversation?
      modifies this`scopes, this`next
      ensures View() == AcknowledgeCreation(old(View()), op)
    {
      var record := RecordAt(View(), op.scope, op.conversation);
      if op.failed || record.None? || (op.kind.ForkConversation? && !CanFork(record.value)) {
        return;
      }
      var (key, id) := Destination(View(), op);
      next := next + 1;
      var destination := if key in scopes then scopes[key] else NewScope(key).(conversations := map[]);
      var created: Record;
      if op.kind.ForkConversation? {
        created := record.value.(title := record.value.title + " (fork)", forkedFrom := Some(record.value.id));
      } else {
        created := MakeConversation(id, NEW_TITLE, "empty");
        created := created.(provider := op.kind.provider, settings := op.kind.settings);
      }
      created := created.(id := id, explicit := true, requestCount := 0, draft := "");
      scopes := scopes[key := destination.(selected := id, conversations := destination.conversations[id := created])];
    }

    method CreateWorktree(key: Key)
      modifies this`scopes
      ensures View() == Created(old(View()), key)
    {
      if key !in scopes {
        scopes := scopes[key := NewScope(key)];
      }
      var s := scopes[key];
      if !s.created {
        var draft := MakeConversation(Named("draft"), NEW_TITLE, "empty");
        s := s.(created := true, selected := Named("draft"), conversations := map[Named("draft") := draft]);
        scopes := scopes[key := s];
      }
    }

    method ChangeResource(op: Operation)
      requires op.kind.Archive? || op.kind.Restore? || op.kind.Delete?
      modifies this`scopes
      ensures View() == Acknowledge(old(View()), op, "")
    {
      var target := op.kind.target;
      var blocked := op.kind.Delete? && DeletionBlocker(View(), target).Some?;
      if op.failed || !TargetExists(View(), target) || blocked || (op.kind.Restore? && scopes[target.key].deleted) {
        return;
      }
      if op.kind.Delete? {
        scopes := Remove(View(), target).scopes;
      } else {
        scopes := SetArchived(View(), target, op.kind.Archive?).scopes;
      }
    }

    method ChangeTurn(op: Operation)
      requires op.kind.Send? || op.kind.Steer? || op.kind.Stop? || op.kind.Reconnect? || op.kind.Answer?
      modifies this`scopes, this`next
      ensures View() == Acknowledge(old(View()), op, "")
    {
      var record := RecordAt(View(), op.scope, op.conversation);
      if record.None? {
        return;
      }
      var (changed, atlas) := AcknowledgeTurn(View(), op, record.value);
      var s := scopes[op.scope];
      s := s.(conversations := s.conversations[op.conversation := changed]);
      if atlas {
        s := s.(atlasBundles := s.atlasBundles + {next});
        next := next + 1;
      }
      scopes := scopes[op.scope := s];
    }
  }

  // ---------- runs ----------

  function Fresh(): Demo {
    Demo(map[], None, 1, false, "none", ["iphone"])
  }

  /** Everything a page can do between a request and its acknowledgment. */
  datatype Action =
    | Tick(now: int, here: string)
    | Request(kind: Kind, scope: Key, conversation: ConvId, now: int, failed: bool)
    | DropOperation
    | OpenScope(key: Key)
    | StartDraft(key: Key)
    | AddNamed(key: Key, name: string, builder: bool)
    | NameBundle
    | SetTurn(key: Key, id: ConvId, turn: string)
    | Edit(key: Key, id: ConvId, title: string, draft: string)
    | SetDirty(key: Key, dirty: bool)
    | Pair(signedIn: bool, ticket: string)

  function Step(d: Demo, a: Action): Demo {
    match a
    case Tick(now, here) => Advance(d, now, here).0
    case Request(kind, scope, conversation, now, failed) => Queue(d, kind, scope, conversation, now, failed)
    case DropOperation => d.(operation := None)
    case OpenScope(key) => EnsureScope(d, key)
    case StartDraft(key) =>
      if key !in d.scopes then d
      else PutRecord(d.(next := d.next + 1), key, Draft(d.next), MakeConversation(Draft(d.next), NEW_TITLE, "empty"))
    case AddNamed(key, name, builder) =>
      if key !in d.scopes || Named(name) in d.scopes[key].conversations then d
      else PutRecord(d, key, Named(name), MakeConversation(Named(name), name, "ready").(builder := builder))
    case NameBundle => d.(next := d.next + 1)
    case SetTurn(key, id, turn) =>
      var r := RecordAt(d, key, id);
      if r.None? then d else PutRecord(d, key, id, r.value.(turn := turn))
    case Edit(key, id, title, draft) =>
      var r := RecordAt(d, key, id);
      if r.None? then d else PutRecord(d, key, id, r.value.(title := title, draft := draft))
    case SetDirty(key, dirty) =>
      if key !in d.scopes then d else d.(scopes := d.scopes[key := d.scopes[key].(dirty := dirty)])
    case Pair(signedIn, ticket) => d.(signedIn := signedIn, ticket := ticket)
  }

  function Run(d: Demo, actions: seq<Action>): Demo {
    if actions == [] then d
    else Step(Run(d, actions[..|actions| - 1]), actions[|actions| - 1])
  }

  // ---------- invariants over runs from a fresh start ----------

  predicate IdBelow(id: ConvId, next: nat) {
    match id
    case Named(_) => true
    case Draft(n) => n < next
    case Fork(n) => n < next
  }

  /** Records are filed under their own id, and every numbered id comes from the counter. */
  predicate ScopeInv(key: Key, s: Scope, next: nat) {
    && s.key == key
    && (s.deleted ==> s.archived && key.tree != MAIN_TREE)
    && (forall id | id in s.conversations :: s.conversations[id].id == id && IdBelow(id, next))
  }

  predicate Inv(d: Demo) {
    forall key | key in d.scopes :: ScopeInv(key, d.scopes[key], d.next)
  }

  lemma PutKeepsInv(d: Demo, key: Key, s: Scope, next: nat)
    requires Inv(d) && d.next <= next && ScopeInv(key, s, next)
    ensures Inv(d.(scopes := d.scopes[key := s], next := next))
  {
  }

  lemma PutRecordKeepsInv(d: Demo, key: Key, id: ConvId, r: Record)
    requires Inv(d) && key in d.scopes && r.id == id && IdBelow(id, d.next)
    ensures Inv(PutRecord(d, key, id, r))
  {
    var s := d.scopes[key];
    PutKeepsInv(d, key, s.(conversations := s.conversations[id := r]), d.next);
  }

  lemma CreationKeepsInv(d: Demo, op: Operation)
    requires Inv(d) && (op.kind.ForkConversation? || op.kind.NewConversation?)
    ensures Inv(AcknowledgeCreation(d, op))
  {
    var e := AcknowledgeCreation(d, op);
    if e != d {
      var key := Destination(d, op).0;
      PutKeepsInv(d, key, e.scopes[key], e.next);
    }
  }

  lemma TurnKeepsInv(d: Demo, op: Operation)
    requires Inv(d)
    requires op.kind.Send? || op.kind.Steer? || op.kind.Stop? || op.kind.Reconnect? || op.kind.Answer?
    ensures Inv(Acknowledge(d, op, ""))
  {
    var r := RecordAt(d, op.scope, op.conversation);
    if r.Some? {
      var (r', atlas) := AcknowledgeTurn(d, op, r.value);
      var e := PutRecord(d, op.scope, op.conversation, r');
      PutRecordKeepsInv(d, op.scope, op.conversation, r');
      if atlas {
        var s := e.scopes[op.scope];
        PutKeepsInv(e, op.scope, s.(atlasBundles := s.atlasBundles + {e.next}), e.next + 1);
      }
    }
  }

  lemma ResourceKeepsInv(d: Demo, op: Operation)
    requires Inv(d) && (op.kind.Archive? || op.kind.Restore? || op.kind.Delete?)
    ensures Inv(Acknowledge(d, op, ""))
  {
    match op.kind
    case Archive(target) => ArchivingKeepsInv(d, target, true);
    case Restore(target) => ArchivingRestores(d, op, target);
    case Delete(target) => if !op.failed && DeletionBlocker(d, target).None? { RemoveKeepsInv(d, target); }
  }

  lemma ArchivingRestores(d: Demo, op: Operation, target: Target)
    requires Inv(d) && op.kind == Restore(target)
    ensures Inv(Acknowledge(d, op, ""))
  {
    if !op.failed && TargetExists(d, target) && !d.scopes[target.key].deleted {
      ArchivingKeepsInv(d, target, false);
    }
  }

  /** Only a removed worktree has to stay archived. */
  lemma ArchivingKeepsInv(d: Demo, target: Target, archived: bool)
    requires Inv(d) && (archived || (target.key in d.scopes ==> !d.scopes[target.key].deleted))
    ensures Inv(SetArchived(d, target, archived))
  {
    match target
    case Worktree(key) =>
      if key in d.scopes { PutKeepsInv(d, key, d.scopes[key].(archived := archived), d.next); }
    case Conversation(key, id) =>
      var r := RecordAt(d, key, id);
      if r.Some? { PutRecordKeepsInv(d, key, id, r.value.(archived := archived)); }
  }

  lemma RemoveKeepsInv(d: Demo, target: Target)
    requires Inv(d) && target.key in d.scopes && DeletionBlocker(d, target).None?
    ensures Inv(Remove(d, target))
  {
    var e := Remove(d, target);
    PutKeepsInv(d, target.key, e.scopes[target.key], d.next);
  }

  lemma EnsureScopeKeepsInv(d: Demo, key: Key)
    requires Inv(d)
    ensures Inv(EnsureScope(d, key)) && key in EnsureScope(d, key).scopes
  {
    if key !in d.scopes {
      SeededIsFiled(key, d.next);
      PutKeepsInv(d, key, NewScope(key), d.next);
    }
  }

  lemma SeededIsFiled(key: Key, next: nat)
    ensures ScopeInv(key, NewScope(key), next)
  {
  }

  lemma CreateKeepsInv(d: Demo, op: Operation, here: string)
    requires Inv(d) && op.kind.Create?
    ensures Inv(Acknowledge(d, op, here))
  {
    if !op.failed {
      var key := Key(here, op.kind.tree);
      var e := EnsureScope(d, key);
      EnsureScopeKeepsInv(d, key);
      var draft := MakeConversation(Named("draft"), NEW_TITLE, "empty");
      if !e.scopes[key].created {
        PutKeepsInv(e, key, e.scopes[key].(created := true, selected := Named("draft"),
                                           conversations := map[Named("draft") := draft]), e.next);
      }
    }
  }

  lemma AcknowledgeKeepsInv(d: Demo, op: Operation, here: string)
    requires Inv(d)
    ensures Inv(Acknowledge(d, op, here))
  {
    match op.kind
    case ForkConversation => CreationKeepsInv(d, op);
    case NewConversation(_, _, _) => CreationKeepsInv(d, op);
    case Create(_) => CreateKeepsInv(d, op, here);
    case SignIn =>
    case Confirm =>
    case Revoke(_) =>
    case Connection =>
    case Archive(_) => ResourceKeepsInv(d, op);
    case Restore(_) => ResourceKeepsInv(d, op);
    case Delete(_) => ResourceKeepsInv(d, op);
    case _ => TurnKeepsInv(d, op);
  }

  lemma TickKeepsInv(d: Demo, now: int, here: string)
    requires Inv(d)
    ensures Inv(Advance(d, now, here).0)
  {
    if d.operation.Some? && d.operation.value.due <= now {
      AcknowledgeKeepsInv(d.(operation := None), d.operation.value, here);
    }
  }

  lemma RecordStepKeepsInv(d: Demo, a: Action)
    requires Inv(d) && (a.StartDraft? || a.AddNamed? || a.SetTurn? || a.Edit?)
    ensures Inv(Step(d, a))
  {
    match a
    case StartDraft(key) =>
      if key in d.scopes {
        var draft := MakeConversation(Draft(d.next), NEW_TITLE, "empty");
        PutRecordKeepsInv(d.(next := d.next + 1), key, Draft(d.next), draft);
      }
    case AddNamed(key, name, builder) =>
      if key in d.scopes {
        PutRecordKeepsInv(d, key, Named(name), MakeConversation(Named(name), name, "ready").(builder := builder));
      }
    case SetTurn(key, id, turn) =>
      var r := RecordAt(d, key, id);
      if r.Some? { PutRecordKeepsInv(d, key, id, r.value.(turn := turn)); }
    case Edit(key, id, title, draft) =>
      var r := RecordAt(d, key, id);
      if r.Some? { PutRecordKeepsInv(d, key, id, r.value.(title := title, draft := draft)); }
  }

  lemma OtherStepKeepsInv(d: Demo, a: Action)
    requires Inv(d) && !a.Tick? && !a.StartDraft? && !a.AddNamed? && !a.SetTurn? && !a.Edit?
    ensures Inv(Step(d, a))
  {
    if a.OpenScope? {
      EnsureScopeKeepsInv(d, a.key);
    }
  }

  lemma StepKeepsInv(d: Demo, a: Action)
    requires Inv(d)
    ensures Inv(Step(d, a))
  {
    if a.Tick? {
      TickKeepsInv(d, a.now, a.here);
    } else if a.StartDraft? || a.AddNamed? || a.SetTurn? || a.Edit? {
      RecordStepKeepsInv(d, a);
    } else {
      OtherStepKeepsInv(d, a);
    }
  }

  lemma {:induction false} ReachableInv(actions: seq<Action>)
    ensures Inv(Run(Fresh(), actions))
  {
    if actions != [] {
      ReachableInv(actions[..|actions| - 1]);
      StepKeepsInv(Run(Fresh(), actions[..|actions| - 1]), actions[|actions| - 1]);
    }
  }

  // ---------- the promises ----------

  /** The operation is a deletion of this conversation that the guard lets through now. */
  predicate Deletes(op: Operation, key: Key, id: ConvId) {
    op.kind == Delete(Conversation(key, id)) && !op.failed
  }

  /** The operation creates a worktree over a scope that has come into being in the meantime. */
  predicate CreatesOver(d: Demo, op: Operation, here: string, key: Key) {
    op.kind.Create? && !op.failed && key == Key(here, op.kind.tree) && key in d.scopes && !d.scopes[key].created
  }

  /** What an acknowledgment that neither deletes nor replaces leaves alone in a scope. */
  predicate Kept(before: Scope, after: Scope) {
    && before.deleted == after.deleted
    && (forall id | id in before.conversations :: id in after.conversations)
  }

  lemma CreationKeeps(d: Demo, op: Operation, key: Key)
    requires op.kind.ForkConversation? || op.kind.NewConversation?
    requires key in d.scopes
    ensures var e := AcknowledgeCreation(d, op); key in e.scopes && Kept(d.scopes[key], e.scopes[key])
  {
  }

  lemma TurnKeeps(d: Demo, op: Operation, here: string, key: Key)
    requires op.kind.Send? || op.kind.Steer? || op.kind.Stop? || op.kind.Reconnect? || op.kind.Answer?
    requires key in d.scopes
    ensures var e := Acknowledge(d, op, here); key in e.scopes && Kept(d.scopes[key], e.scopes[key])
  {
  }

  lemma ArchivingKeeps(d: Demo, target: Target, archived: bool, key: Key)
    requires key in d.scopes
    ensures var e := SetArchived(d, target, archived); key in e.scopes && Kept(d.scopes[key], e.scopes[key])
  {
  }

  lemma DeletionEffect(d: Demo, op: Operation, here: string, key: Key, id: ConvId)
    requires op.kind.Delete? && key in d.scopes
    ensures SafeAt(d, op, here, key, id)
  {
  }

  lemma CreateEffect(d: Demo, op: Operation, here: string, key: Key, id: ConvId)
    requires op.kind.Create? && key in d.scopes
    ensures SafeAt(d, op, here, key, id)
  {
  }

  /** The acknowledgment treats this worktree and this conversation in it as the guard promises. */
  predicate SafeAt(d: Demo, op: Operation, here: string, key: Key, id: ConvId)
    requires key in d.scopes
  {
    var e := Acknowledge(d, op, here);
    var s := d.scopes[key];
    && key in e.scopes
    && (id in s.conversations && id !in e.scopes[key].conversations ==>
          (Deletes(op, key, id) && !IsActiveTurn(s.conversations[id])) || CreatesOver(d, op, here, key))
    && (!s.deleted && e.scopes[key].deleted ==>
          op.kind == Delete(Worktree(key)) && !op.failed && s.key.tree != MAIN_TREE && !s.dirty && !HasActiveTurn(s))
    && (s.deleted ==> e.scopes[key].deleted)
  }

  /**
    Whatever has changed since the request, in any state at all: an acknowledgment takes away a
    conversation only as the target of a deletion while its turn is not active, or with a worktree
    created over it; it removes only a worktree that is not the main one, not dirty and has no
    active turn; and it never brings a removed worktree back.
   */
  lemma {:induction false} DeletionIsSafe(d: Demo, op: Operation, here: string, key: Key, id: ConvId)
    requires key in d.scopes
    ensures SafeAt(d, op, here, key, id)
  {
    match op.kind
    case ForkConversation => CreationKeeps(d, op, key);
    case NewConversation(_, _, _) => CreationKeeps(d, op, key);
    case Create(_) => CreateEffect(d, op, here, key, id);
    case SignIn =>
    case Confirm =>
    case Revoke(_) =>
    case Connection =>
    case Archive(target) => ArchivingKeeps(d, target, true, key);
    case Restore(target) => ArchivingKeeps(d, target, false, key);
    case Delete(_) => DeletionEffect(d, op, here, key, id);
    case _ => TurnKeeps(d, op, here, key);
  }

  lemma StepKeepsRemoved(d: Demo, a: Action, key: Key)
    requires key in d.scopes
    ensures key in Step(d, a).scopes && (d.scopes[key].deleted ==> Step(d, a).scopes[key].deleted)
  {
    match a
    case Tick(now, here) =>
      if d.operation.Some? && d.operation.value.due <= now {
        DeletionIsSafe(d.(operation := None), d.operation.value, here, key, Named(""));
      }
    case _ =>
  }

  /** On every run a removed worktree stays removed and archived, and the main one is never removed. */
  lemma {:induction false} RemovalIsFinal(before: seq<Action>, after: seq<Action>, key: Key)
    ensures var d, e := Run(Fresh(), before), Run(Fresh(), before + after);
            key in d.scopes ==>
              && key in e.scopes
              && (d.scopes[key].deleted ==> key.tree != MAIN_TREE && e.scopes[key].deleted && e.scopes[key].archived)
  {
    ReachableInv(before);
    ReachableInv(before + after);
    RunConcat(Fresh(), before, after);
    if key in Run(Fresh(), before).scopes {
      RemovedStays(Run(Fresh(), before), after, key);
    }
  }

  lemma {:induction false} RunConcat(d: Demo, before: seq<Action>, after: seq<Action>)
    ensures Run(d, before + after) == Run(Run(d, before), after)
  {
    if after == [] {
      assert before + after == before;
    } else {
      var n := |after| - 1;
      RunConcat(d, before, after[..n]);
      assert (before + after)[..|before + after| - 1] == before + after[..n];
      assert (before + after)[|before + after| - 1] == after[n];
    }
  }

  lemma {:induction false} RemovedStays(d: Demo, actions: seq<Action>, key: Key)
    requires key in d.scopes
    ensures key in Run(d, actions).scopes && (d.scopes[key].deleted ==> Run(d, actions).scopes[key].deleted)
  {
    if actions != [] {
      RemovedStays(d, actions[..|actions| - 1], key);
      StepKeepsRemoved(Run(d, actions[..|actions| - 1]), actions[|actions| - 1], key);
    }
  }

  /** From a fresh start the id of a fork or new conversation is always free where it lands. */
  lemma {:induction false} FreshIdsNeverOverwrite(actions: seq<Action>, op: Operation)
    requires op.kind.ForkConversation? || op.kind.NewConversation?
    ensures var d := Run(Fresh(), actions);
            var (key, id) := Destination(d, op);
            && RecordAt(d, key, id).None?
            && forall k, i | RecordAt(d, k, i).Some? ::
                 RecordAt(AcknowledgeCreation(d, op), k, i) == RecordAt(d, k, i)
  {
    ReachableInv(actions);
  }

  /**
    In any state a creation touches no record but the one filed under the next id at its destination;
    so it ends an active turn exactly when a record with an active turn is filed there already.
   */
  lemma {:induction false} CreationEndsTurnWhen(d: Demo, op: Operation)
    requires op.kind.ForkConversation? || op.kind.NewConversation?
    requires Creates(d, op)
    ensures var e := AcknowledgeCreation(d, op);
            var (key, id) := Destination(d, op);
            && RecordAt(e, key, id).Some?
            && RecordAt(e, key, id).value.id == id && !IsActiveTurn(RecordAt(e, key, id).value)
            && (forall k, i | RecordAt(d, k, i).Some? && (k, i) != (key, id) :: RecordAt(e, k, i) == RecordAt(d, k, i))
            && ((exists k, i | RecordAt(d, k, i).Some? ::
                   IsActiveTurn(RecordAt(d, k, i).value)
                   && !(RecordAt(e, k, i).Some? && IsActiveTurn(RecordAt(e, k, i).value)))
                <==> RecordAt(d, key, id).Some? && IsActiveTurn(RecordAt(d, key, id).value))
  {
    var e := AcknowledgeCreation(d, op);
    var (key, id) := Destination(d, op);
    assert RecordAt(e, key, id).Some?;
    forall k, i | RecordAt(d, k, i).Some? && (k, i) != (key, id)
      ensures RecordAt(e, k, i) == RecordAt(d, k, i)
    {
    }
  }

  /** What the check on a restored snapshot asks of ids, counter and operation. */
  predicate SnapshotAccepted(d: Demo) {
    && 1 <= d.next <= 1000000 && |d.scopes| <= 64
    && (forall key | key in d.scopes ::
          d.scopes[key].key == key && |d.scopes[key].conversations| <= 200
          && forall id | id in d.scopes[key].conversations :: d.scopes[key].conversations[id].id == id)
    && (d.operation.Some? ==>
          RecordAt(d, d.operation.value.scope, d.operation.value.conversation).Some?
          && 1 <= d.operation.value.epoch <= 1000000)
  }

  /** An accepted snapshot may carry a counter behind its ids; then an acknowledgment does overwrite. */
  lemma RestoredCounterCanOverwrite()
    ensures exists d: Demo, now, here ::
              && SnapshotAccepted(d) && d.operation.Some?
              && var key, id := d.operation.value.scope, Draft(d.next);
                 && RecordAt(d, key, id).Some? && IsActiveTurn(RecordAt(d, key, id).value)
                 && RecordAt(Advance(d, now, here).0, key, id).Some?
                 && !IsActiveTurn(RecordAt(Advance(d, now, here).0, key, id).value)
  {
    var key, id := Key("ketplus-desktop", "feature"), Draft(1);
    var busy := MakeConversation(id, "Busy", "running");
    var scope := Scope(key, id, false, false, false, false, {}, map[id := busy]);
    var op := Operation(NewConversation("feature", "Codex", ""), key, id, 0, false, 1);
    var d := Demo(map[key := scope], Some(op), 1, true, "none", []);
    assert SnapshotAccepted(d);
    assert RecordAt(Advance(d, 0, "").0, key, id).value.turn == "empty";
    assert RecordAt(d, d.operation.value.scope, Draft(d.next)) == Some(busy);
  }

  /** A record of a worktree about to be created survives only as the empty draft it would become. */
  predicate SurvivesCreate(id: ConvId, r: Record) {
    id == Named("draft") && r == MakeConversation(id, NEW_TITLE, "empty")
  }

  /**
    An acknowledged create takes a record away or replaces it exactly when its scope was opened,
    uncreated, in the meantime and holds anything but the empty draft.
   */
  lemma CreateLosesWhen(d: Demo, op: Operation, here: string)
    requires op.kind.Create?
    ensures (exists k, i | RecordAt(d, k, i).Some? :: RecordAt(Acknowledge(d, op, here), k, i) != RecordAt(d, k, i))
            <==> CreatesOver(d, op, here, Key(here, op.kind.tree))
                 && exists i | i in d.scopes[Key(here, op.kind.tree)].conversations ::
                      !SurvivesCreate(i, d.scopes[Key(here, op.kind.tree)].conversations[i])
  {
    var key := Key(here, op.kind.tree);
    var e := Acknowledge(d, op, here);
    forall k, i | RecordAt(d, k, i).Some?
      ensures RecordAt(e, k, i) == RecordAt(d, k, i)
              <==> !(CreatesOver(d, op, here, key) && k == key && !SurvivesCreate(i, RecordAt(d, k, i).value))
    {
    }
    if CreatesOver(d, op, here, key) {
      forall i | i in d.scopes[key].conversations && !SurvivesCreate(i, d.scopes[key].conversations[i])
        ensures RecordAt(d, key, i).Some? && RecordAt(e, key, i) != RecordAt(d, key, i)
      {
      }
    }
  }

  /** An acknowledged create ends an active turn exactly when such a scope has one, under any id. */
  lemma CreateEndsTurnWhen(d: Demo, op: Operation, here: string)
    requires op.kind.Create?
    ensures var e := Acknowledge(d, op, here);
            (exists k, i | RecordAt(d, k, i).Some? ::
               IsActiveTurn(RecordAt(d, k, i).value)
               && !(RecordAt(e, k, i).Some? && IsActiveTurn(RecordAt(e, k, i).value)))
            <==> CreatesOver(d, op, here, Key(here, op.kind.tree)) && HasActiveTurn(d.scopes[Key(here, op.kind.tree)])
  {
    var key := Key(here, op.kind.tree);
    var e := Acknowledge(d, op, here);
    forall k, i | RecordAt(d, k, i).Some? && IsActiveTurn(RecordAt(d, k, i).value)
      ensures RecordAt(e, k, i).Some? && IsActiveTurn(RecordAt(e, k, i).value)
              <==> !(CreatesOver(d, op, here, key) && k == key)
    {
    }
    if CreatesOver(d, op, here, key) && HasActiveTurn(d.scopes[key]) {
      var i :| i in d.scopes[key].conversations && IsActiveTurn(d.scopes[key].conversations[i]);
      assert RecordAt(d, key, i).Some?;
    }
  }

  /** Both ways are reachable: a conversation in the middle of its turn disappears, and a busy draft is emptied. */
  lemma CreateDropsAnActiveTurn()
    ensures exists actions: seq<Action>, a, key, id ::
              var d := Run(Fresh(), actions);
              && RecordAt(d, key, id).Some? && IsActiveTurn(RecordAt(d, key, id).value)
              && RecordAt(Step(d, a), key, id).None?
    ensures exists actions: seq<Action>, a, key, id ::
              var d := Run(Fresh(), actions);
              && RecordAt(d, key, id).Some? && IsActiveTurn(RecordAt(d, key, id).value)
              && RecordAt(Step(d, a), key, id).Some? && !IsActiveTurn(RecordAt(Step(d, a), key, id).value)
  {
    DropsListed();
    EmptiesDraft();
  }

  /** `d` is reached by `actions`, and a create of `key` is about to be acknowledged there. */
  predicate CreateIsDue(actions: seq<Action>, d: Demo, key: Key) {
    && Run(Fresh(), actions) == d && key in d.scopes && !d.scopes[key].created
    && d.operation.Some? && d.operation.value.kind == Create(key.tree) && !d.operation.value.failed
    && d.operation.value.due == 900
  }

  lemma DueCreateReplaces(actions: seq<Action>, d: Demo, key: Key)
    requires CreateIsDue(actions, d, key)
    ensures RecordAt(Step(d, Tick(900, key.repo)), key, Named("draft"))
            == Some(MakeConversation(Named("draft"), NEW_TITLE, "empty"))
    ensures forall id | id != Named("draft") :: RecordAt(Step(d, Tick(900, key.repo)), key, id).None?
  {
  }

  /** Request a create, then open its scope before the acknowledgment. */
  lemma OpenWhilePending(key: Key) returns (actions: seq<Action>, d: Demo)
    ensures CreateIsDue(actions, d, key) && d.scopes[key].conversations == Seeded(key)
  {
    var request := Request(Create(key.tree), key, Named("draft"), 0, false);
    actions, d := Then([], Fresh(), request);
    assert d == Queue(Fresh(), Create(key.tree), key, Named("draft"), 0, false);
    actions, d := Then(actions, d, OpenScope(key));
  }

  lemma DropsListed()
    ensures exists actions: seq<Action>, a, key, id ::
              var d := Run(Fresh(), actions);
              && RecordAt(d, key, id).Some? && IsActiveTurn(RecordAt(d, key, id).value)
              && RecordAt(Step(d, a), key, id).None?
  {
    var key, id := Key("ketplus-desktop", "feature"), Named("review");
    var actions, d := OpenWhilePending(key);
    DueCreateReplaces(actions, d, key);
    assert RecordAt(d, key, id).Some? && IsActiveTurn(RecordAt(d, key, id).value);
    assert RecordAt(Step(Run(Fresh(), actions), Tick(900, key.repo)), key, id).None?;
  }

  lemma EmptiesDraft()
    ensures exists actions: seq<Action>, a, key, id ::
              var d := Run(Fresh(), actions);
              && RecordAt(d, key, id).Some? && IsActiveTurn(RecordAt(d, key, id).value)
              && RecordAt(Step(d, a), key, id).Some? && !IsActiveTurn(RecordAt(Step(d, a), key, id).value)
  {
    var key := Key("api-service", "feature");
    var actions, d := OpenWhilePending(key);
    actions, d := BusyDraft(actions, d, key);
    DueCreateReplaces(actions, d, key);
    assert !IsActiveTurn(RecordAt(Step(Run(Fresh(), actions), Tick(900, key.repo)), key, Named("draft")).value);
  }

  lemma BusyDraft(actions: seq<Action>, d: Demo, key: Key) returns (actions': seq<Action>, d': Demo)
    requires CreateIsDue(actions, d, key) && Named("draft") !in d.scopes[key].conversations
    ensures CreateIsDue(actions', d', key)
    ensures RecordAt(d', key, Named("draft")).Some? && IsActiveTurn(RecordAt(d', key, Named("draft")).value)
  {
    actions', d' := Then(actions, d, AddNamed(key, "draft", false));
    assert RecordAt(d', key, Named("draft")).Some?;
    actions', d' := Then(actions', d', SetTurn(key, Named("draft"), "running"));
  }

  lemma Then(actions: seq<Action>, d: Demo, a: Action) returns (actions': seq<Action>, d': Demo)
    requires Run(Fresh(), actions) == d
    ensures actions' == actions + [a] && d' == Step(d, a) && Run(Fresh(), actions') == d'
  {
    actions', d' := actions + [a], Step(d, a);
    assert actions'[..|actions|] == actions;
  }

  // ---------- failures, turns, archiving, devices ----------

  predicate ChangesTurn(kind: Kind) {
    kind.Send? || kind.Steer? || kind.Stop? || kind.Reconnect? || kind.Answer?
  }

  /** The turn to fall back to is the one the conversation is in. */
  predicate FallsBack(d: Demo, op: Operation) {
    var r := RecordAt(d, op.scope, op.conversation);
    match op.kind
    case Send(_, _, _, previous) => r.Some? ==> r.value.turn == previous
    case Steer(_, previous) => r.Some? ==> r.value.turn == previous
    case Stop(previous) => r.Some? ==> r.value.turn == previous
    case _ => true
  }

  /** A failed operation changes nothing but its own slot, except the three that report their failure in the state. */
  lemma FailureChangesNothing(d: Demo, op: Operation, here: string)
    requires op.failed && !op.kind.Reconnect? && !op.kind.Answer? && !op.kind.SignIn?
    ensures Acknowledge(d, op, here).(scopes := d.scopes) == d
    ensures Acknowledge(d, op, here) == d <==> FallsBack(d, op)
  {
    var r := RecordAt(d, op.scope, op.conversation);
    if ChangesTurn(op.kind) && r.Some? {
      var r' := AcknowledgeTurn(d, op, r.value).0;
      RecordPutBack(d, op.scope, op.conversation, r');
    }
  }

  lemma RecordPutBack(d: Demo, key: Key, id: ConvId, r: Record)
    requires RecordAt(d, key, id).Some?
    ensures RecordAt(PutRecord(d, key, id, r), key, id) == Some(r)
    ensures PutRecord(d, key, id, r) == d <==> r == RecordAt(d, key, id).value
  {
    var s := d.scopes[key];
    assert r == s.conversations[id] ==> s.conversations[id := r] == s.conversations;
    assert r == s.conversations[id] ==> d.scopes[key := s] == d.scopes;
    assert PutRecord(d, key, id, r).scopes[key].conversations[id] == r;
  }

  /**
    An acknowledged send, steer, stop, reconnection or answer reaches the conversation it was queued
    for and no other: a send or steer that succeeds makes its turn active, a stop ends it, an answer
    keeps it active either way, and only a successful send counts as a request.
   */
  lemma TurnOutcome(d: Demo, op: Operation, here: string, key: Key, id: ConvId)
    requires ChangesTurn(op.kind) && RecordAt(d, key, id).Some?
    ensures var e := Acknowledge(d, op, here);
            var before, after := RecordAt(d, key, id).value, RecordAt(e, key, id);
            after.Some? &&
            if (key, id) != (op.scope, op.conversation) then after.value == before
            else TurnChanged(op, before, after.value)
  {
    var r := RecordAt(d, op.scope, op.conversation);
    if r.Some? {
      TurnChanges(d, op, r.value);
      TurnReaches(d, op, r.value, key, id);
    }
  }

  /** What the acknowledgment makes of the conversation it was queued for. */
  predicate TurnChanged(op: Operation, before: Record, after: Record) {
    && after.id == before.id && after.archived == before.archived
    && ((op.kind.Send? || op.kind.Steer?) && !op.failed ==> IsActiveTurn(after))
    && (op.kind.Stop? && !op.failed ==> !IsActiveTurn(after))
    && (op.kind.Answer? ==> IsActiveTurn(after))
    && (op.kind.Reconnect? ==> after.turn == before.turn && (after.connection == "connected" <==> !op.failed))
    && after.requestCount == before.requestCount + (if op.kind.Send? && !op.failed then 1 else 0)
    && (after.draft != before.draft ==> after.draft == "" && !op.failed)
  }

  lemma TurnChanges(d: Demo, op: Operation, r: Record)
    requires ChangesTurn(op.kind)
    ensures TurnChanged(op, r, AcknowledgeTurn(d, op, r).0)
  {
  }

  lemma TurnReaches(d: Demo, op: Operation, r: Record, key: Key, id: ConvId)
    requires RecordAt(d, op.scope, op.conversation) == Some(r) && RecordAt(d, key, id).Some?
    ensures RecordAt(TurnAcknowledged(d, op), key, id)
            == if (key, id) == (op.scope, op.conversation) then Some(AcknowledgeTurn(d, op, r).0)
               else RecordAt(d, key, id)
  {
    var (r', atlas) := AcknowledgeTurn(d, op, r);
    var e := PutRecord(d, op.scope, op.conversation, r');
    RecordAfterPut(d, op.scope, op.conversation, r', key, id);
    if atlas {
      BundlesKeepRecords(e, op.scope, e.next, key, id);
    }
  }

  lemma RecordAfterPut(d: Demo, key: Key, id: ConvId, r: Record, k: Key, i: ConvId)
    requires key in d.scopes
    ensures RecordAt(PutRecord(d, key, id, r), k, i) == if (k, i) == (key, id) then Some(r) else RecordAt(d, k, i)
  {
  }

  lemma BundlesKeepRecords(d: Demo, key: Key, bundle: nat, k: Key, i: ConvId)
    requires key in d.scopes
    ensures var s := d.scopes[key];
            var e := d.(scopes := d.scopes[key := s.(atlasBundles := s.atlasBundles + {bundle})]);
            RecordAt(e, k, i) == RecordAt(d, k, i)
  {
  }

  predicate IsArchived(d: Demo, target: Target)
    requires TargetExists(d, target)
  {
    match target
    case Worktree(key) => d.scopes[key].archived
    case Conversation(key, id) => d.scopes[key].conversations[id].archived
  }

  lemma RecordPutTwice(d: Demo, key: Key, id: ConvId, a: Record, b: Record)
    requires key in d.scopes
    ensures PutRecord(PutRecord(d, key, id, a), key, id, b) == PutRecord(d, key, id, b)
  {
    var s := d.scopes[key];
    assert s.conversations[id := a][id := b] == s.conversations[id := b];
    var t, u := s.(conversations := s.conversations[id := a]), s.(conversations := s.conversations[id := b]);
    assert d.scopes[key := t][key := u] == d.scopes[key := u];
  }

  lemma WorktreeArchivedTwice(d: Demo, key: Key, a: bool, b: bool)
    requires key in d.scopes
    ensures var target := Worktree(key);
            && SetArchived(SetArchived(d, target, a), target, b) == SetArchived(d, target, b)
            && (SetArchived(d, target, b) == d <==> d.scopes[key].archived == b)
  {
    var s := d.scopes[key];
    assert d.scopes[key := s.(archived := a)][key := s.(archived := b)] == d.scopes[key := s.(archived := b)];
    assert s.archived == b ==> d.scopes[key := s.(archived := b)] == d.scopes;
    assert SetArchived(d, Worktree(key), b).scopes[key].archived == b;
  }

  lemma ArchivedTwice(d: Demo, target: Target, a: bool, b: bool)
    requires TargetExists(d, target)
    ensures TargetExists(SetArchived(d, target, a), target)
    ensures SetArchived(SetArchived(d, target, a), target, b) == SetArchived(d, target, b)
    ensures SetArchived(d, target, b) == d <==> IsArchived(d, target) == b
  {
    match target
    case Worktree(key) => WorktreeArchivedTwice(d, key, a, b);
    case Conversation(key, id) =>
      var r := RecordAt(d, key, id).value;
      RecordPutBack(d, key, id, r.(archived := a));
      RecordPutBack(d, key, id, r.(archived := b));
      RecordPutTwice(d, key, id, r.(archived := a), r.(archived := b));
  }

  /**
    Archiving is reversible: restoring undoes it for whatever was not archived before. In a removed
    worktree restoring does nothing, so there it undoes it for what was archived already.
   */
  lemma RestoreUndoesArchive(d: Demo, archive: Operation, restore: Operation, target: Target, here: string)
    requires TargetExists(d, target) && !archive.failed && !restore.failed
    requires archive.kind == Archive(target) && restore.kind == Restore(target)
    ensures Acknowledge(Acknowledge(d, archive, here), restore, here) == d
            <==> (IsArchived(d, target) <==> d.scopes[target.key].deleted)
  {
    ArchivedTwice(d, target, true, false);
    ArchivedTwice(d, target, true, true);
  }

  /** The paired devices as a restored snapshot must list them. */
  predicate DevicesValid(devices: seq<string>) {
    && (forall i | 0 <= i < |devices| :: devices[i] in {"iphone", "pixel"})
    && (forall i, j | 0 <= i < j < |devices| :: devices[i] != devices[j])
  }

  lemma {:induction false} WithoutDevice(devices: seq<string>, device: string)
    ensures forall x :: x in Without(devices, device) <==> x in devices && x != device
    ensures DevicesValid(devices) ==> DevicesValid(Without(devices, device))
  {
    if devices != [] {
      var n := |devices| - 1;
      WithoutDevice(devices[..n], device);
      assert devices == devices[..n] + [devices[n]];
      if DevicesValid(devices) {
        assert devices[n] !in Without(devices[..n], device);
      }
    }
  }

  /** On every run no device is paired twice, and a device is added only while signed in with a claimed ticket. */
  lemma {:induction false} DevicesStayValid(actions: seq<Action>)
    ensures DevicesValid(Run(Fresh(), actions).devices)
    ensures actions != [] ==>
              var d, e := Run(Fresh(), actions[..|actions| - 1]), Run(Fresh(), actions);
              forall x | x in e.devices && x !in d.devices ::
                x == "pixel" && d.signedIn && d.ticket == "claimed" && e.ticket == "approved"
  {
    if actions != [] {
      DevicesStayValid(actions[..|actions| - 1]);
      StepDevices(Run(Fresh(), actions[..|actions| - 1]), actions[|actions| - 1]);
    }
  }

  lemma StepDevices(d: Demo, a: Action)
    requires DevicesValid(d.devices)
    ensures DevicesValid(Step(d, a).devices)
    ensures forall x | x in Step(d, a).devices && x !in d.devices ::
              x == "pixel" && d.signedIn && d.ticket == "claimed" && Step(d, a).ticket == "approved"
  {
    if a.Tick? && Advance(d, a.now, a.here).1 {
      var op := d.operation.value;
      if op.kind.Revoke? {
        WithoutDevice(d.devices, op.kind.device);
      } else if op.kind.Confirm? {
        ConfirmedDevices(d, op);
      } else {
        OtherDevices(d.(operation := None), op, a.here);
      }
    }
  }

  lemma ConfirmedDevices(d: Demo, op: Operation)
    requires DevicesValid(d.devices) && op.kind.Confirm?
    ensures var e := Acknowledge(d, op, "");
            && DevicesValid(e.devices)
            && forall x | x in e.devices && x !in d.devices ::
                 x == "pixel" && d.signedIn && d.ticket == "claimed" && e.ticket == "approved"
  {
  }

  lemma OtherDevices(d: Demo, op: Operation, here: string)
    requires !op.kind.Revoke? && !op.kind.Confirm?
    ensures Acknowledge(d, op, here).devices == d.devices
  {
  }
}
