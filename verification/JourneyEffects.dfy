/** What each acknowledgment does, in the prototype's own words: names, titles and times as they appear on screen. */
module JourneyEffects {
  import opened Options
  import opened Journey

  /** The turns that keep a conversation from being forked or deleted. */
  lemma ActiveTurnsAre(r: Record)
    ensures IsActiveTurn(r) <==>
            || r.turn == "running" || r.turn == "building" || r.turn == "question" || r.turn == "stopping"
            || r.turn == "steering" || r.turn == "answer-submitting" || r.turn == "answer-error"
  {
  }

  // ---------- the slot ----------

  /** A queued operation takes the slot and a number, and waits nine hundred milliseconds. */
  lemma QueuedOperationWaits(d: Demo, kind: Kind, scope: Key, conversation: ConvId, now: int, failed: bool,
                             later: int, here: string)
    ensures var q := Queue(d, kind, scope, conversation, now, failed);
            && q.operation == Some(Operation(kind, scope, conversation, now + 900, failed, d.next))
            && q == d.(operation := q.operation, next := d.next + 1)
            && (later < now + 900 ==> Advance(q, later, here) == (q, false))
            && (later >= now + 900 ==> Advance(q, later, here).1 && Advance(q, later, here).0.operation == None)
  {
    var q := Queue(d, kind, scope, conversation, now, failed);
    SlotStaysEmpty(q.(operation := None), q.operation.value, here);
  }

  lemma SlotStaysEmpty(d: Demo, op: Operation, here: string)
    requires d.operation == None
    ensures Acknowledge(d, op, here).operation == None
  {
  }

  // ---------- deleting and archiving ----------

  /** What stands in the way of a deletion, and that nothing else does. */
  lemma BlockersAre(d: Demo, key: Key, id: ConvId)
    ensures var b := DeletionBlocker(d, Conversation(key, id));
            var there := key in d.scopes && id in d.scopes[key].conversations;
            && (b == Some(Missing) <==> !there)
            && (b == Some(ActiveTurn) <==> there && IsActiveTurn(d.scopes[key].conversations[id]))
            && (b == None <==> there && !IsActiveTurn(d.scopes[key].conversations[id]))
    ensures var b := DeletionBlocker(d, Worktree(key));
            && (b == Some(Missing) <==> key !in d.scopes)
            && (b == None <==>
                  && key in d.scopes && !d.scopes[key].deleted && d.scopes[key].key.tree != "develop"
                  && !d.scopes[key].dirty
                  && forall i | i in d.scopes[key].conversations :: !IsActiveTurn(d.scopes[key].conversations[i]))
  {
  }

  predicate OtherScopesKept(d: Demo, e: Demo, key: Key) {
    e.scopes.Keys == d.scopes.Keys && forall k | k in d.scopes && k != key :: e.scopes[k] == d.scopes[k]
  }

  /** An unblocked deletion takes its conversation away, and no other. */
  lemma ConversationIsDeleted(d: Demo, op: Operation, here: string, key: Key, id: ConvId)
    requires op.kind == Delete(Conversation(key, id)) && !op.failed
    requires key in d.scopes && id in d.scopes[key].conversations && !IsActiveTurn(d.scopes[key].conversations[id])
    ensures var e := Acknowledge(d, op, here);
            && e == d.(scopes := e.scopes) && OtherScopesKept(d, e, key)
            && e.scopes[key] == d.scopes[key].(conversations := e.scopes[key].conversations)
            && id !in e.scopes[key].conversations
            && forall i | i != id :: RecordAt(e, key, i) == RecordAt(d, key, i)
  {
  }

  /** An unblocked deletion of a worktree marks it removed, and archives and closes all that is in it. */
  lemma WorktreeIsDeleted(d: Demo, op: Operation, here: string, key: Key)
    requires op.kind == Delete(Worktree(key)) && !op.failed && DeletionBlocker(d, Worktree(key)) == None
    ensures var e := Acknowledge(d, op, here);
            && e == d.(scopes := e.scopes) && OtherScopesKept(d, e, key)
            && var s, s' := d.scopes[key], e.scopes[key];
               && s' == s.(deleted := true, archived := true, conversations := s'.conversations)
               && s'.conversations.Keys == s.conversations.Keys
               && forall i | i in s.conversations ::
                    s'.conversations[i] == s.conversations[i].(archived := true, available := false)
  {
  }

  /** Archiving and restoring set the mark of their target alone; a removed worktree is not restored. */
  lemma MarkIsSet(d: Demo, op: Operation, here: string)
    requires (op.kind.Archive? || op.kind.Restore?) && !op.failed
    ensures var e, target := Acknowledge(d, op, here), op.kind.target;
            if target.key in d.scopes && (op.kind.Restore? ==> !d.scopes[target.key].deleted)
            then MarkedIn(d, e, target, op.kind.Archive?) else e == d
  {
    var target := op.kind.target;
    AcknowledgesMark(d, op, here);
    if target.key in d.scopes {
      MarkingMeans(d, target, op.kind.Archive?);
    }
  }

  lemma AcknowledgesMark(d: Demo, op: Operation, here: string)
    requires (op.kind.Archive? || op.kind.Restore?) && !op.failed
    ensures var target := op.kind.target;
            var allowed := TargetExists(d, target) && (op.kind.Restore? ==> !d.scopes[target.key].deleted);
            Acknowledge(d, op, here) == if allowed then SetArchived(d, target, op.kind.Archive?) else d
  {
  }

  predicate MarkedIn(d: Demo, e: Demo, target: Target, mark: bool) {
    && target.key in d.scopes && e == d.(scopes := e.scopes) && OtherScopesKept(d, e, target.key)
    && Marked(d.scopes[target.key], e.scopes[target.key], target, mark)
  }

  predicate Marked(s: Scope, s': Scope, target: Target, mark: bool) {
    match target
    case Worktree(_) => s' == s.(archived := mark)
    case Conversation(_, id) =>
      && s' == s.(conversations := s'.conversations) && s'.conversations.Keys == s.conversations.Keys
      && forall i | i in s.conversations ::
           s'.conversations[i] == if i == id then s.conversations[i].(archived := mark) else s.conversations[i]
  }

  lemma MarkingMeans(d: Demo, target: Target, mark: bool)
    requires target.key in d.scopes
    ensures MarkedIn(d, SetArchived(d, target, mark), target, mark)
    ensures !TargetExists(d, target) ==> MarkedIn(d, d, target, mark)
  {
    if TargetExists(d, target) {
      MarkingChanges(d, target, mark);
    }
  }

  lemma MarkingChanges(d: Demo, target: Target, mark: bool)
    requires TargetExists(d, target)
    ensures MarkedIn(d, SetArchived(d, target, mark), target, mark)
  {
  }

  // ---------- creating ----------

  /** A creation is refused exactly when it failed, its source is gone, or a fork's source cannot be forked. */
  lemma CreationIsRefused(d: Demo, op: Operation)
    requires op.kind.ForkConversation? || op.kind.NewConversation?
    ensures var r := RecordAt(d, op.scope, op.conversation);
            Creates(d, op) <==>
            && !op.failed && r.Some?
            && (op.kind.ForkConversation? ==> !IsActiveTurn(r.value) && r.value.provider != "Cursor")
    ensures !Creates(d, op) ==> AcknowledgeCreation(d, op) == d
  {
  }

  /** The one record a creation files, and where; a worktree not opened before holds nothing else. */
  lemma CreationFiles(d: Demo, op: Operation)
    requires (op.kind.ForkConversation? || op.kind.NewConversation?) && Creates(d, op)
    ensures var e := AcknowledgeCreation(d, op);
            var key := if op.kind.ForkConversation? then op.scope else Key(op.scope.repo, op.kind.tree);
            var id := if op.kind.ForkConversation? then Fork(d.next) else Draft(d.next);
            && e == d.(next := d.next + 1, scopes := e.scopes)
            && e.scopes.Keys == d.scopes.Keys + {key}
            && (forall k | k in d.scopes && k != key :: e.scopes[k] == d.scopes[k])
            && e.scopes[key].selected == id && id in e.scopes[key].conversations
            && (key !in d.scopes ==> e.scopes[key].conversations.Keys == {id})
            && (key in d.scopes ==> e.scopes[key].conversations.Keys == d.scopes[key].conversations.Keys + {id})
            && e.scopes[key].conversations[id] == NewRecord(op, RecordAt(d, op.scope, op.conversation).value, id)
  {
  }

  /** A fork is a copy with a title of its own, unsent; a new conversation is empty, with the provider asked for. */
  function NewRecord(op: Operation, source: Record, id: ConvId): Record
    requires op.kind.ForkConversation? || op.kind.NewConversation?
  {
    match op.kind
    case ForkConversation =>
      Record(id, source.title + " (fork)", source.turn, source.builder, source.connection, source.available,
             source.archived, source.provider, source.settings, "", source.latestPrompt, 0, true, Some(source.id))
    case NewConversation(_, provider, settings) =>
      Record(id, "New conversation", "empty", false, "connected", true,
             false, provider, settings, "", "", 0, true, None)
  }

  /** A worktree created starts with one empty draft, selected; one that was created before is left alone. */
  lemma WorktreeIsCreated(d: Demo, op: Operation, here: string)
    requires op.kind.Create?
    ensures var e, key := Acknowledge(d, op, here), Key(here, op.kind.tree);
            && (op.failed || (key in d.scopes && d.scopes[key].created) ==> e == d)
            && (!op.failed ==> key in e.scopes && e.scopes[key].created && e == d.(scopes := e.scopes)
                               && e.scopes.Keys == d.scopes.Keys + {key}
                               && forall k | k in d.scopes && k != key :: e.scopes[k] == d.scopes[k])
            && (!op.failed && !(key in d.scopes && d.scopes[key].created) ==>
                  && e.scopes[key].selected == Named("draft")
                  && e.scopes[key].conversations ==
                     map[Named("draft") := Record(Named("draft"), "New conversation", "empty", false, "connected", true,
                                                  false, "Codex", "", "", "", 0, false, None)])
  {
  }

  /** A worktree opened for the first time: only the two demonstration repositories start with an active turn. */
  lemma FirstOpening(d: Demo, key: Key)
    ensures var e := EnsureScope(d, key);
            && key in e.scopes && (key in d.scopes ==> e == d)
            && e == d.(scopes := e.scopes) && (forall k | k in d.scopes :: k in e.scopes && e.scopes[k] == d.scopes[k])
            && (key !in d.scopes ==>
                  var s := e.scopes[key];
                  && !s.archived && !s.deleted && !s.created
                  && (s.dirty <==> key.tree == "develop" && key.repo != "api-service")
                  && forall i | i in s.conversations ::
                       && s.conversations[i].turn == (if i == Named("startup") || i == Named("review")
                                                      then "running" else "ready")
                       && (i == Named("startup") ==> key.tree == "develop")
                       && (key.repo == "ketplus-desktop" || key.repo == "ketviet"
                           || (key == Key("api-service", "develop") && i == Named("linux-build"))))
  {
  }

  // ---------- turns ----------

  /** The conversation an acknowledged turn operation leaves behind, field by field. */
  function AfterTurn(op: Operation, r: Record): Record
    requires ChangesTurn(op.kind)
  {
    var busy := if r.builder then "building" else "running";
    match op.kind
    case Send(input, _, suggested, previous) =>
      if op.failed then r.(turn := previous)
      else
        var named := r.title == "New conversation" && r.requestCount == 0;
        r.(turn := busy, latestPrompt := input, requestCount := r.requestCount + 1,
           title := if named then suggested else r.title, draft := if r.draft == input then "" else r.draft)
    case Steer(input, previous) =>
      if op.failed then r.(turn := previous)
      else r.(turn := busy, latestPrompt := input, draft := if r.draft == input then "" else r.draft)
    case Stop(previous) => if op.failed then r.(turn := previous) else r.(turn := "stopped")
    case Reconnect => if op.failed then r.(connection := "offline") else r.(connection := "connected")
    case Answer => if op.failed then r.(turn := "answer-error") else r.(turn := "running")
  }

  /** The operation asks for an Atlas, and so makes one in its worktree. */
  predicate AsksForAtlas(op: Operation) {
    op.kind.Send? && !op.failed && op.kind.trimmed == "Create an Atlas for this conversation."
  }

  lemma TurnBecomes(d: Demo, op: Operation, r: Record)
    requires ChangesTurn(op.kind)
    ensures AcknowledgeTurn(d, op, r) == (AfterTurn(op, r), AsksForAtlas(op))
  {
  }

  /** A turn operation changes its own conversation as described, and adds an Atlas exactly when one is asked for. */
  lemma TurnTakesEffect(d: Demo, op: Operation, here: string)
    requires ChangesTurn(op.kind)
    ensures var e := Acknowledge(d, op, here);
            match RecordAt(d, op.scope, op.conversation)
            case None => e == d
            case Some(r) =>
              var s, s' := d.scopes[op.scope], e.scopes[op.scope];
              && OtherScopesKept(d, e, op.scope)
              && s' == s.(conversations := s.conversations[op.conversation := AfterTurn(op, r)],
                          atlasBundles := if AsksForAtlas(op) then s.atlasBundles + {d.next} else s.atlasBundles)
              && e == d.(scopes := e.scopes, next := if AsksForAtlas(op) then d.next + 1 else d.next)
  {
    var r := RecordAt(d, op.scope, op.conversation);
    if r.Some? {
      TurnBecomes(d, op, r.value);
      AcknowledgesTurn(d, op, here);
    }
  }

  lemma AcknowledgesTurn(d: Demo, op: Operation, here: string)
    requires ChangesTurn(op.kind)
    ensures Acknowledge(d, op, here) == TurnAcknowledged(d, op)
  {
  }

  // ---------- the account ----------

  /** Signing in, confirming a claimed ticket, and revoking change the account and nothing else. */
  lemma AccountTakesEffect(d: Demo, op: Operation, here: string)
    requires op.kind.SignIn? || op.kind.Confirm? || op.kind.Revoke?
    ensures var e := Acknowledge(d, op, here);
            && (op.kind.SignIn? ==> e == d.(signedIn := !op.failed))
            && (op.kind.Confirm? ==>
                  var claims := !op.failed && d.signedIn && d.ticket == "claimed";
                  && (!claims ==> e == d)
                  && (claims ==> e == d.(ticket := "approved", devices := e.devices) && "pixel" in e.devices)
                  && (claims && "pixel" in d.devices ==> e.devices == d.devices)
                  && (claims && "pixel" !in d.devices ==> e.devices == d.devices + ["pixel"]))
            && (op.kind.Revoke? ==> e == d.(devices := e.devices) && (op.failed ==> e == d))
  {
  }

  /** Revoking keeps the other devices, each in its place, and not the one revoked. */
  lemma {:induction false} RevokingKeepsTheRest(d: Demo, op: Operation, here: string, a: seq<string>, b: seq<string>)
    requires op.kind.Revoke? && !op.failed && d.devices == a + [op.kind.device] + b
    requires op.kind.device !in a && op.kind.device !in b
    ensures Acknowledge(d, op, here).devices == a + b
  {
    var device := op.kind.device;
    KeptWithout(a, device);
    assert (a + [device])[..|a|] == a;
    assert Journey.Without(a + [device], device) == a;
    WithoutTail(a + [device], b, device);
  }

  lemma {:induction false} KeptWithout(devices: seq<string>, device: string)
    requires device !in devices
    ensures Journey.Without(devices, device) == devices
  {
    if devices != [] {
      KeptWithout(devices[..|devices| - 1], device);
    }
  }

  lemma {:induction false} WithoutTail(a: seq<string>, b: seq<string>, device: string)
    requires device !in b
    ensures Journey.Without(a + b, device) == Journey.Without(a, device) + b
  {
    if b == [] {
      assert a + b == a;
    } else {
      var init, last := b[..|b| - 1], b[|b| - 1];
      WithoutTail(a, init, device);
      assert (a + b)[..|a + b| - 1] == a + init && b == init + [last];
      assert Journey.Without(a + b, device) == (Journey.Without(a, device) + init) + [last];
    }
  }
}
