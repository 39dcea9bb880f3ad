/** The `/warranty` command (calliope.py:511-713) as an explicit state
    machine.  A moderator picks the bought item, fills in the quantity, the
    bot sends the buyer a direct message, deducts the stock, then waits for
    the buyer's proof image (with a timeout) and after it for a moderator's
    lock reaction on the vouch notification (without a timeout).

    Every wait of the source (`bot.wait_for`, the modal, the buttons, the
    direct-message call) becomes an `Event`; each event arrives with the
    settings and guild roles as they are at that moment, since the source
    reads them again at every use. */
module Warranty {
  import opened Wrappers
  import opened Text
  import opened Stocks
  import opened Signals
  import opened ReferenceCode

  /** `MODERATOR` and `VOUCH_CHANNEL` from the settings file, and the ids of
      the roles the guild has. */
  datatype Config = Config(moderatorId: int, guildRoles: set<int>, vouchChannel: int)

  /** How `user.send` ends: delivered, or `discord.errors.Forbidden`. */
  datatype DmResult = Delivered | Forbidden(status: int)

  /** One warranty run after the direct message went out. `referenceCode`
      (calliope.py:532) is the one staff see; `shownCode` is the one a fresh
      `generate_reference_code()` call put into the buyer's message
      (calliope.py:546, 560). */
  datatype Transaction = Transaction(
    item: string, quantity: nat, referenceCode: string, shownCode: string, vouchChannel: int)

  datatype Phase =
    | Denied                          // has_required_role refused the command
    | NoItems                         // calliope.py:706-709
    | PickingItem(buttons: seq<string>)
    | FillingForm(item: string)       // the WarrantyModal is open
    | FormRejected(item: string)      // calliope.py:294-301
    | DmRefused(item: string, privacySettings: bool)  // calliope.py:694-702
    | Crashed                         // an exception the handler does not catch
    | AwaitingProof(tx: Transaction)  // calliope.py:611
    | AwaitingLock(tx: Transaction, notification: int, moderatorId: int)  // calliope.py:649
    | Activated(tx: Transaction, verifiedBy: int)
    | Voided(tx: Transaction)

  datatype Flow = Flow(buyer: int, phase: Phase)

  datatype Event =
    | ItemClicked(item: string)
    | FormSubmitted(quantity: string, referenceDraws: Draws, shownDraws: Draws, dm: DmResult)
      // `notificationId` is the id the platform gives the vouch notification
      // should this message be accepted as proof
    | MessagePosted(message: Message, notificationId: int)
    | ProofTimedOut
    | ReactionAdded(reaction: Reaction)

  datatype Input = Input(cfg: Config, event: Event)

  datatype Color = Red | Green

  /** What the bot sends, edits and writes, without the text. */
  datatype Effect =
    | ErrorReply
    | DirectMessage(to: int, code: string)
    | PendingNotice(code: string)
    | Saved(snapshot: seq<Entry>)
    | VouchNotification(id: int, code: string)
    | ActivationNotice(vouched: int, verifiedBy: int, code: string)
    | PendingRecolored(color: Color)
    | VoidNotice(code: string)

  datatype Outcome = Outcome(flow: Flow, table: Table, effects: seq<Effect>)

  /** The command itself: the role check, then the item buttons (one per
      name, in the table's order) unless the table is empty. */
  function Start(cfg: Config, t: Table, author: Member, buyer: int): (f: Flow)
    requires WellFormed(t)
    ensures f.buyer == buyer
    ensures f.phase.PickingItem? <==> HasRequiredRole(author, cfg.moderatorId) && t.order != []
    ensures f.phase.PickingItem? ==> f.phase.buttons == t.order
  {
    if !HasRequiredRole(author, cfg.moderatorId) then Flow(buyer, Denied)
    else if |t.order| == 0 then Flow(buyer, NoItems)
    else Flow(buyer, PickingItem(t.order))
  }

  /** The source's activation notice (calliope.py:655-662).  `reaction, user
      = await bot.wait_for(...)` at calliope.py:649 rebinds `user`, so the
      notice names the reacting moderator as the user who vouched. */
  function ActivationNoticeAsWritten(buyer: int, reactor: int, code: string): (e: Effect)
    ensures e.ActivationNotice? && e.vouched == reactor && e.verifiedBy == reactor && e.code == code
  {
    ActivationNotice(reactor, reactor, code)
  }

  lemma AsWrittenNamesModerator(buyer: int, reactor: int, code: string)
    requires reactor != buyer
    ensures ActivationNoticeAsWritten(buyer, reactor, code).vouched != buyer
  {
  }

  /** The notice as evidently intended: the buyer vouched, the moderator
      verified.  `CorrectedStep` uses this one. */
  function CorrectedActivationNotice(buyer: int, reactor: int, code: string): (e: Effect)
    ensures e.ActivationNotice? && e.vouched == buyer && e.verifiedBy == reactor && e.code == code
  {
    ActivationNotice(buyer, reactor, code)
  }

  /** `send_warranty` up to the proof wait (calliope.py:531-598). */
  function Send(cfg: Config, t: Table, buyer: int, item: string, quantity: nat,
                referenceDraws: Draws, shownDraws: Draws, dm: DmResult): (o: Outcome)
    requires WellFormed(t)
    ensures WellFormed(o.table)
    ensures o.flow.buyer == buyer
    ensures dm.Forbidden? ==> o == Outcome(Flow(buyer, DmRefused(item, dm.status == 403)), t, [ErrorReply])
    ensures dm == Delivered ==>
              && |o.effects| >= 2
              && o.effects[0] == DirectMessage(buyer, GenerateReferenceCode(shownDraws))
              && o.effects[1] == PendingNotice(GenerateReferenceCode(referenceDraws))
    ensures dm == Delivered && item !in t.stock ==> o.flow.phase == Crashed && o.table == t
    ensures dm == Delivered && item in t.stock ==>
              && o.table.stock == t.stock[item := t.stock[item] - quantity]
              && o.table.order == t.order
              && o.flow.phase.AwaitingProof? && o.flow.phase.tx.quantity == quantity
  {
    var referenceCode := GenerateReferenceCode(referenceDraws);
    var shownCode := GenerateReferenceCode(shownDraws);
    match dm
    case Forbidden(status) => Outcome(Flow(buyer, DmRefused(item, status == 403)), t, [ErrorReply])
    case Delivered =>
      var sent := [DirectMessage(buyer, shownCode), PendingNotice(referenceCode)];
      match Deduct(t, item, quantity)
      case None => Outcome(Flow(buyer, Crashed), t, sent)
      case Some(after) =>
        var tx := Transaction(item, quantity, referenceCode, shownCode, cfg.vouchChannel);
        Outcome(Flow(buyer, AwaitingProof(tx)), after, sent + [Saved(Items(after))])
  }

  /** One event. */
  function Step(cfg: Config, t: Table, f: Flow, e: Event): (o: Outcome)
    requires WellFormed(t)
    ensures WellFormed(o.table)
    ensures o.flow.buyer == f.buyer
    ensures Terminal(f.phase) ==> o == Outcome(f, t, [])
  {
    var idle := Outcome(f, t, []);
    match f.phase
    case PickingItem(buttons) =>
      if !(e.ItemClicked? && e.item in buttons) then idle
      else (
        match PickItem(t, e.item)
        // A KeyError in the callback, or the out-of-stock reply: the
        // buttons stay on screen and a later click is handled again.
        case Missing => idle
        case SoldOut => Outcome(f, t, [ErrorReply])
        case Available(_) => Outcome(f.(phase := FillingForm(e.item)), t, []))
    case FillingForm(item) =>
      if !e.FormSubmitted? then idle
      else if !IsDigits(e.quantity) then Outcome(f.(phase := FormRejected(item)), t, [ErrorReply])
      else Send(cfg, t, f.buyer, item, DigitsValue(e.quantity), e.referenceDraws, e.shownDraws, e.dm)
    case AwaitingProof(tx) =>
      if e.ProofTimedOut? then
        Outcome(f.(phase := Voided(tx)), t, [VoidNotice(tx.referenceCode), PendingRecolored(Red)])
      else if !(e.MessagePosted? && ImageCheck(e.message, f.buyer, tx.vouchChannel)) then idle
      else if FindRole(cfg.guildRoles, cfg.moderatorId).None? then
        // `moderator_role.mention` on a missing role (calliope.py:613-618)
        Outcome(f.(phase := Crashed), t, [])
      else
        Outcome(f.(phase := AwaitingLock(tx, e.notificationId, cfg.moderatorId)), t,
                [VouchNotification(e.notificationId, tx.referenceCode)])
    case AwaitingLock(tx, notification, moderatorId) =>
      if e.ReactionAdded? && LockCheck(e.reaction, notification, FindRole(cfg.guildRoles, moderatorId)) then
        Outcome(f.(phase := Activated(tx, e.reaction.user.id)), t,
                [ActivationNoticeAsWritten(f.buyer, e.reaction.user.id, tx.referenceCode), PendingRecolored(Green)])
      else idle
    case _ => idle
  }

  /** A sequence of events, in order. */
  function Run(t: Table, f: Flow, ins: seq<Input>): (o: Outcome)
    requires WellFormed(t)
    ensures WellFormed(o.table)
    ensures o.flow.buyer == f.buyer
    decreases |ins|
  {
    if ins == [] then Outcome(f, t, [])
    else
      var first := Step(ins[0].cfg, t, f, ins[0].event);
      var rest := Run(first.table, first.flow, ins[1..]);
      Outcome(rest.flow, rest.table, first.effects + rest.effects)
  }

  /** The step as evidently intended: the same transitions, but the
      activation notice names the buyer as the member who vouched. */
  function CorrectedStep(cfg: Config, t: Table, f: Flow, e: Event): (o: Outcome)
    requires WellFormed(t)
    ensures o.flow == Step(cfg, t, f, e).flow && o.table == Step(cfg, t, f, e).table
  {
    var o := Step(cfg, t, f, e);
    if f.phase.AwaitingLock? && o.flow.phase.Activated? then
      o.(effects := [CorrectedActivationNotice(f.buyer, o.flow.phase.verifiedBy, f.phase.tx.referenceCode),
                     PendingRecolored(Green)])
    else o
  }

  function CorrectedRun(t: Table, f: Flow, ins: seq<Input>): (o: Outcome)
    requires WellFormed(t)
    ensures WellFormed(o.table)
    ensures o.flow.buyer == f.buyer
    decreases |ins|
  {
    if ins == [] then Outcome(f, t, [])
    else
      var first := CorrectedStep(ins[0].cfg, t, f, ins[0].event);
      var rest := CorrectedRun(first.table, first.flow, ins[1..]);
      Outcome(rest.flow, rest.table, first.effects + rest.effects)
  }

  // ---------------------------------------------------------------------
  // One step

  /** The item buttons: a click on an item in stock opens the form.  A
      sold-out item gets an error reply and a vanished one raises KeyError
      inside the callback; either way the buttons stay and nothing else
      changes. */
  lemma PickingStep(cfg: Config, t: Table, f: Flow, item: string)
    requires WellFormed(t)
    requires f.phase.PickingItem? && item in f.phase.buttons
    ensures var o := Step(cfg, t, f, ItemClicked(item));
      && o.table == t
      && (o.flow.phase == FillingForm(item) <==> item in t.stock && t.stock[item] > 0)
      && (item !in t.stock ==> o == Outcome(f, t, []))
      && (item in t.stock && t.stock[item] <= 0 ==> o == Outcome(f, t, [ErrorReply]))
  {
  }

  /** The form: a quantity that is not all digits stops the run with an
      error and touches nothing.  With a good quantity the direct message is
      tried first; if it is refused, nothing is deducted and nothing saved.
      If it goes out, the item's stock goes down by exactly the quantity
      (possibly below zero), the table is saved once, and the proof wait
      starts; an item deleted meanwhile raises KeyError after the message
      was sent. */
  lemma SubmitForm(cfg: Config, t: Table, buyer: int, item: string, e: Event)
    requires WellFormed(t)
    requires e.FormSubmitted?
    ensures var o := Step(cfg, t, Flow(buyer, FillingForm(item)), e);
      && (!IsDigits(e.quantity) ==> o.flow.phase == FormRejected(item) && o.table == t)
      && (IsDigits(e.quantity) && e.dm.Forbidden? ==>
            o.flow.phase == DmRefused(item, e.dm.status == 403) && o.table == t && o.effects == [ErrorReply])
      && (IsDigits(e.quantity) && e.dm == Delivered ==>
            && o.effects[0] == DirectMessage(buyer, GenerateReferenceCode(e.shownDraws))
            && o.effects[1] == PendingNotice(GenerateReferenceCode(e.referenceDraws))
            && (item !in t.stock ==> o.flow.phase == Crashed && o.table == t)
            && (item in t.stock ==>
                  && o.table.stock == t.stock[item := t.stock[item] - DigitsValue(e.quantity)]
                  && o.table.order == t.order
                  && o.effects == o.effects[..2] + [Saved(Items(o.table))]
                  && o.flow.phase == AwaitingProof(Transaction(item, DigitsValue(e.quantity),
                       GenerateReferenceCode(e.referenceDraws), GenerateReferenceCode(e.shownDraws),
                       cfg.vouchChannel))))
  {
  }

  /** The code in the buyer's message is not the reference code staff see:
      the two agree only when two independent sets of draws happen to be
      equal. */
  lemma ShownCodeIsIndependent(referenceDraws: Draws, shownDraws: Draws)
    ensures GenerateReferenceCode(referenceDraws) == GenerateReferenceCode(shownDraws) <==> referenceDraws == shownDraws
  {
    if GenerateReferenceCode(referenceDraws) == GenerateReferenceCode(shownDraws) {
      GenerateInjective(referenceDraws, shownDraws);
    }
  }

  /** The stock changes only in the step where the direct message was
      delivered. */
  lemma StockChangesOnlyOnDelivery(cfg: Config, t: Table, f: Flow, e: Event)
    requires WellFormed(t)
    requires Step(cfg, t, f, e).table != t
    ensures f.phase.FillingForm? && e.FormSubmitted? && IsDigits(e.quantity) && e.dm == Delivered
    ensures Step(cfg, t, f, e).flow.phase.AwaitingProof?
  {
  }

  /** The proof timeout voids the warranty and gives no stock back. */
  lemma ProofTimeoutVoids(cfg: Config, t: Table, buyer: int, tx: Transaction)
    requires WellFormed(t)
    ensures Step(cfg, t, Flow(buyer, AwaitingProof(tx)), ProofTimedOut)
            == Outcome(Flow(buyer, Voided(tx)), t, [VoidNotice(tx.referenceCode), PendingRecolored(Red)])
  {
  }

  /** A message that fails `image_check` changes nothing; one that passes
      moves on to the lock wait (or crashes when the moderator role is gone). */
  lemma ProofMessage(cfg: Config, t: Table, buyer: int, tx: Transaction, m: Message, id: int)
    requires WellFormed(t)
    ensures var o := Step(cfg, t, Flow(buyer, AwaitingProof(tx)), MessagePosted(m, id));
      && o.table == t
      && (!ImageCheck(m, buyer, tx.vouchChannel) ==> o == Outcome(Flow(buyer, AwaitingProof(tx)), t, []))
      && (ImageCheck(m, buyer, tx.vouchChannel) && cfg.moderatorId in cfg.guildRoles ==>
            o.flow.phase == AwaitingLock(tx, id, cfg.moderatorId))
      && (ImageCheck(m, buyer, tx.vouchChannel) && cfg.moderatorId !in cfg.guildRoles ==>
            o.flow.phase == Crashed)
  {
  }

  // ---------------------------------------------------------------------
  // Whole runs

  predicate Terminal(p: Phase) {
    !(p.PickingItem? || p.FillingForm? || p.AwaitingProof? || p.AwaitingLock?)
  }

  /** A run that has ended ignores every further event. */
  lemma {:induction false} TerminalStays(t: Table, f: Flow, ins: seq<Input>)
    requires WellFormed(t)
    requires Terminal(f.phase)
    ensures Run(t, f, ins) == Outcome(f, t, [])
    decreases |ins|
  {
    if ins != [] {
      TerminalStays(t, f, ins[1..]);
    }
  }

  /** The lock reaction that `check_reaction` accepts for this wait. */
  predicate LockAt(notification: int, moderatorId: int, i: Input) {
    i.event.ReactionAdded? && LockCheck(i.event.reaction, notification, FindRole(i.cfg.guildRoles, moderatorId))
  }

  /** The lock wait has no timeout: until an accepted lock reaction
      arrives, nothing happens, whatever else (timeouts included) comes. */
  lemma {:induction false} LockWaitHasNoTimeout(t: Table, f: Flow, ins: seq<Input>)
    requires WellFormed(t)
    requires f.phase.AwaitingLock?
    requires forall k | 0 <= k < |ins| :: !LockAt(f.phase.notification, f.phase.moderatorId, ins[k])
    ensures Run(t, f, ins) == Outcome(f, t, [])
    decreases |ins|
  {
    if ins != [] {
      LockWaitHasNoTimeout(t, f, ins[1..]);
    }
  }

  /** From the lock wait, the run activates exactly when an accepted lock
      reaction arrives, and it never becomes void. */
  lemma {:induction false} LockWaitOutcome(t: Table, f: Flow, ins: seq<Input>)
    requires WellFormed(t)
    requires f.phase.AwaitingLock?
    ensures var p := Run(t, f, ins).flow.phase;
      && !p.Voided?
      && (p.Activated? <==> exists k | 0 <= k < |ins| :: LockAt(f.phase.notification, f.phase.moderatorId, ins[k]))
      && (!p.Activated? ==> p == f.phase)
    ensures var o := Run(t, f, ins);
      && o.table == t
      && (o.flow.phase.Activated? ==>
            && o.flow.phase.tx == f.phase.tx
            && o.effects == [ActivationNoticeAsWritten(f.buyer, o.flow.phase.verifiedBy, f.phase.tx.referenceCode),
                             PendingRecolored(Green)])
      && (!o.flow.phase.Activated? ==> o.effects == [])
    decreases |ins|
  {
    if ins != [] {
      var first := Step(ins[0].cfg, t, f, ins[0].event);
      if LockAt(f.phase.notification, f.phase.moderatorId, ins[0]) {
        TerminalStays(first.table, first.flow, ins[1..]);
      } else {
        LockWaitOutcome(t, f, ins[1..]);
        ShiftExists(f.phase.notification, f.phase.moderatorId, ins);
      }
    }
  }

  lemma ShiftExists(notification: int, moderatorId: int, ins: seq<Input>)
    requires ins != [] && !LockAt(notification, moderatorId, ins[0])
    ensures (exists k | 0 <= k < |ins| :: LockAt(notification, moderatorId, ins[k]))
            <==> (exists k | 0 <= k < |ins[1..]| :: LockAt(notification, moderatorId, ins[1..][k]))
  {
    if exists k | 0 <= k < |ins| :: LockAt(notification, moderatorId, ins[k]) {
      var k :| 0 <= k < |ins| && LockAt(notification, moderatorId, ins[k]);
      assert LockAt(notification, moderatorId, ins[1..][k - 1]);
    }
    if exists k | 0 <= k < |ins[1..]| :: LockAt(notification, moderatorId, ins[1..][k]) {
      var k :| 0 <= k < |ins[1..]| && LockAt(notification, moderatorId, ins[1..][k]);
      assert LockAt(notification, moderatorId, ins[k + 1]);
    }
  }

  /** Event `k` is an accepted lock reaction, arriving while the run
      waits for it. */
  ghost predicate ApprovedAt(t: Table, f: Flow, ins: seq<Input>, k: int)
    requires WellFormed(t)
  {
    && 0 <= k < |ins|
    && var p := Run(t, f, ins[..k]).flow.phase;
       p.AwaitingLock? && LockAt(p.notification, p.moderatorId, ins[k])
  }

  /** Whatever the start, a run becomes activated only through a lock
      reaction on the vouch notification from a holder of the moderator
      role, received during the lock wait. */
  lemma {:induction false} ActivatedOnlyByLock(t: Table, f: Flow, ins: seq<Input>)
    requires WellFormed(t)
    requires !f.phase.Activated?
    requires Run(t, f, ins).flow.phase.Activated?
    ensures exists k :: ApprovedAt(t, f, ins, k)
    decreases |ins|
  {
    var first := Step(ins[0].cfg, t, f, ins[0].event);
    if first.flow.phase.Activated? {
      assert ins[..0] == [];
      assert ApprovedAt(t, f, ins, 0);
    } else {
      ActivatedOnlyByLock(first.table, first.flow, ins[1..]);
      var k :| ApprovedAt(first.table, first.flow, ins[1..], k);
      var prefix := ins[..k + 1];
      assert prefix[0] == ins[0] && prefix[1..] == ins[1..][..k];
      assert Run(t, f, prefix).flow == Run(first.table, first.flow, ins[1..][..k]).flow;
      assert ins[k + 1] == ins[1..][k];
      assert ApprovedAt(t, f, ins, k + 1);
    }
  }

  /** The buyer's proof message for this run. */
  predicate ProofAt(buyer: int, tx: Transaction, i: Input) {
    i.event.MessagePosted? && ImageCheck(i.event.message, buyer, tx.vouchChannel)
  }

  /** A proof timeout arrives before any accepted proof message. */
  predicate TimeoutFirst(buyer: int, tx: Transaction, ins: seq<Input>) {
    exists k | 0 <= k < |ins| :: ins[k].event.ProofTimedOut? && forall j | 0 <= j < k :: !ProofAt(buyer, tx, ins[j])
  }

  /** After the proof wait nothing can void the run: the lock wait does not
      time out. */
  lemma {:induction false} NoVoidAfterProof(t: Table, f: Flow, ins: seq<Input>)
    requires WellFormed(t)
    requires f.phase.AwaitingLock? || (Terminal(f.phase) && !f.phase.Voided?)
    ensures !Run(t, f, ins).flow.phase.Voided?
  {
    if f.phase.AwaitingLock? {
      LockWaitOutcome(t, f, ins);
    } else {
      TerminalStays(t, f, ins);
    }
  }

  /** From the proof wait, the run ends void exactly when the timeout comes
      before an accepted proof message; the stock is never touched again. */
  lemma {:induction false} ProofWaitOutcome(t: Table, f: Flow, ins: seq<Input>)
    requires WellFormed(t)
    requires f.phase.AwaitingProof?
    ensures Run(t, f, ins).flow.phase.Voided? <==> TimeoutFirst(f.buyer, f.phase.tx, ins)
    ensures Run(t, f, ins).table == t
    decreases |ins|
  {
    if ins != [] {
      var tx := f.phase.tx;
      var first := Step(ins[0].cfg, t, f, ins[0].event);
      ProofStepKeepsTable(ins[0].cfg, t, f, ins[0].event);
      if ins[0].event.ProofTimedOut? {
        TerminalStays(first.table, first.flow, ins[1..]);
        assert TimeoutFirst(f.buyer, tx, ins) by {
          assert ins[0].event.ProofTimedOut?;
        }
      } else if ProofAt(f.buyer, tx, ins[0]) {
        NoVoidAfterProof(first.table, first.flow, ins[1..]);
        SettledKeepsTable(first.table, first.flow, ins[1..]);
      } else {
        assert first.flow == f && first.table == t;
        ProofWaitOutcome(t, f, ins[1..]);
        TimeoutFirstShift(f.buyer, tx, ins);
      }
    }
  }

  lemma ProofStepKeepsTable(cfg: Config, t: Table, f: Flow, e: Event)
    requires WellFormed(t)
    requires f.phase.AwaitingProof?
    ensures Step(cfg, t, f, e).table == t
  {
  }

  lemma TimeoutFirstShift(buyer: int, tx: Transaction, ins: seq<Input>)
    requires ins != [] && !ins[0].event.ProofTimedOut? && !ProofAt(buyer, tx, ins[0])
    ensures TimeoutFirst(buyer, tx, ins) <==> TimeoutFirst(buyer, tx, ins[1..])
  {
    if TimeoutFirst(buyer, tx, ins) {
      var k :| 0 <= k < |ins| && ins[k].event.ProofTimedOut? && forall j | 0 <= j < k :: !ProofAt(buyer, tx, ins[j]);
      assert k > 0;
      assert ins[1..][k - 1].event.ProofTimedOut?;
      forall j | 0 <= j < k - 1 ensures !ProofAt(buyer, tx, ins[1..][j]) {
        assert ins[1..][j] == ins[j + 1];
      }
    }
    if TimeoutFirst(buyer, tx, ins[1..]) {
      var k :| 0 <= k < |ins[1..]| && ins[1..][k].event.ProofTimedOut?
               && forall j | 0 <= j < k :: !ProofAt(buyer, tx, ins[1..][j]);
      assert ins[k + 1].event.ProofTimedOut?;
      forall j | 0 <= j < k + 1 ensures !ProofAt(buyer, tx, ins[j]) {
        if j > 0 {
          assert ins[j] == ins[1..][j - 1];
        }
      }
    }
  }

  function SaveCount(effects: seq<Effect>): nat {
    if effects == [] then 0 else (if effects[0].Saved? then 1 else 0) + SaveCount(effects[1..])
  }

  lemma {:induction false} SaveCountAppend(a: seq<Effect>, b: seq<Effect>)
    ensures SaveCount(a + b) == SaveCount(a) + SaveCount(b)
  {
    if a != [] {
      assert (a + b)[0] == a[0];
      assert (a + b)[1..] == a[1..] + b;
      SaveCountAppend(a[1..], b);
    } else {
      assert a + b == b;
    }
  }

  lemma {:induction false} SaveCountNone(effects: seq<Effect>)
    requires forall i | 0 <= i < |effects| :: !effects[i].Saved?
    ensures SaveCount(effects) == 0
  {
    if effects != [] {
      SaveCountNone(effects[1..]);
    }
  }

  /** One step saves at most once, and only from the form. */
  lemma StepSaves(cfg: Config, t: Table, f: Flow, e: Event)
    requires WellFormed(t)
    ensures SaveCount(Step(cfg, t, f, e).effects) <= 1
    ensures !f.phase.FillingForm? ==> SaveCount(Step(cfg, t, f, e).effects) == 0
  {
    var o := Step(cfg, t, f, e);
    if f.phase.FillingForm? && e.FormSubmitted? && IsDigits(e.quantity) && e.dm == Delivered && f.phase.item in t.stock {
      var sent := o.effects[..2];
      assert o.effects == sent + [o.effects[2]];
      SaveCountNone(sent);
      SaveCountAppend(sent, [o.effects[2]]);
      SaveCountNone([]);
    } else {
      SaveCountNone(o.effects);
    }
  }

  /** Once the direct message has gone out (or the run ended), the stock is
      never changed and never saved again. */
  lemma {:induction false} SettledKeepsTable(t: Table, f: Flow, ins: seq<Input>)
    requires WellFormed(t)
    requires !(f.phase.PickingItem? || f.phase.FillingForm?)
    ensures Run(t, f, ins).table == t
    ensures SaveCount(Run(t, f, ins).effects) == 0
    decreases |ins|
  {
    if ins != [] {
      var first := Step(ins[0].cfg, t, f, ins[0].event);
      assert first.table == t;
      StepSaves(ins[0].cfg, t, f, ins[0].event);
      SettledKeepsTable(first.table, first.flow, ins[1..]);
      SaveCountAppend(first.effects, Run(first.table, first.flow, ins[1..]).effects);
    }
  }

  /** A warranty run deducts and saves the stock at most once, however the
      events interleave. */
  lemma {:induction false} SavesAtMostOnce(t: Table, f: Flow, ins: seq<Input>)
    requires WellFormed(t)
    ensures SaveCount(Run(t, f, ins).effects) <= 1
    decreases |ins|
  {
    if ins != [] {
      var first := Step(ins[0].cfg, t, f, ins[0].event);
      var rest := Run(first.table, first.flow, ins[1..]);
      SaveCountAppend(first.effects, rest.effects);
      StepSaves(ins[0].cfg, t, f, ins[0].event);
      if first.flow.phase.PickingItem? || first.flow.phase.FillingForm? {
        SavesAtMostOnce(first.table, first.flow, ins[1..]);
      } else {
        SettledKeepsTable(first.table, first.flow, ins[1..]);
      }
    }
  }

  // ---------------------------------------------------------------------
  // The activation notice, as written and as intended

  /** As written: when a moderator other than the buyer activates a run
      waiting for the lock, the notice names that moderator, not the buyer,
      as the member who vouched. */
  lemma AsWrittenRunNamesModerator(t: Table, f: Flow, ins: seq<Input>)
    requires WellFormed(t)
    requires f.phase.AwaitingLock?
    requires Run(t, f, ins).flow.phase.Activated?
    ensures var o := Run(t, f, ins);
      && |o.effects| > 0
      && o.effects[0] == ActivationNotice(o.flow.phase.verifiedBy, o.flow.phase.verifiedBy, f.phase.tx.referenceCode)
      && (o.flow.phase.verifiedBy != f.buyer ==> o.effects[0].vouched != f.buyer)
  {
    LockWaitOutcome(t, f, ins);
  }

  /** `effects` with every activation notice naming `buyer` as the member
      who vouched. */
  function WithVoucher(effects: seq<Effect>, buyer: int): (r: seq<Effect>)
    ensures |r| == |effects|
    ensures forall i | 0 <= i < |effects| ::
              r[i] == if effects[i].ActivationNotice? then effects[i].(vouched := buyer) else effects[i]
  {
    seq(|effects|, i requires 0 <= i < |effects| =>
      if effects[i].ActivationNotice? then effects[i].(vouched := buyer) else effects[i])
  }

  lemma WithVoucherAppend(a: seq<Effect>, b: seq<Effect>, buyer: int)
    ensures WithVoucher(a + b, buyer) == WithVoucher(a, buyer) + WithVoucher(b, buyer)
  {
    var l, r := WithVoucher(a + b, buyer), WithVoucher(a, buyer) + WithVoucher(b, buyer);
    assert |l| == |r|;
    forall i | 0 <= i < |l| ensures l[i] == r[i] {
      if i < |a| {
        assert (a + b)[i] == a[i];
      } else {
        assert (a + b)[i] == b[i - |a|];
      }
    }
  }

  /** One step differs from the corrected step only in who the activation
      notice says vouched. */
  lemma CorrectedStepOnlyFixesVoucher(cfg: Config, t: Table, f: Flow, e: Event)
    requires WellFormed(t)
    ensures CorrectedStep(cfg, t, f, e).effects == WithVoucher(Step(cfg, t, f, e).effects, f.buyer)
  {
    var o := Step(cfg, t, f, e);
    if !(f.phase.AwaitingLock? && o.flow.phase.Activated?) {
      assert forall i | 0 <= i < |o.effects| :: !o.effects[i].ActivationNotice?;
      assert WithVoucher(o.effects, f.buyer) == o.effects;
    }
  }

  /** The corrected run goes through the same phases and stock as the run
      as written; its effects differ only in who the activation notice says
      vouched. */
  lemma {:induction false} CorrectedRunOnlyFixesVoucher(t: Table, f: Flow, ins: seq<Input>)
    requires WellFormed(t)
    ensures CorrectedRun(t, f, ins)
            == Outcome(Run(t, f, ins).flow, Run(t, f, ins).table, WithVoucher(Run(t, f, ins).effects, f.buyer))
    decreases |ins|
  {
    if ins == [] {
      assert WithVoucher([], f.buyer) == [];
    } else {
      var first := Step(ins[0].cfg, t, f, ins[0].event);
      CorrectedStepOnlyFixesVoucher(ins[0].cfg, t, f, ins[0].event);
      CorrectedRunOnlyFixesVoucher(first.table, first.flow, ins[1..]);
      WithVoucherAppend(first.effects, Run(first.table, first.flow, ins[1..]).effects, f.buyer);
    }
  }

  /** As intended: every activation notice of a corrected run names the
      buyer as the member who vouched, and a run activated from the lock
      wait posts exactly the notice naming the buyer and the moderator who
      locked it, then turns the pending notice green. */
  lemma CorrectedNoticesNameBuyer(t: Table, f: Flow, ins: seq<Input>)
    requires WellFormed(t)
    ensures var o := CorrectedRun(t, f, ins);
      forall i | 0 <= i < |o.effects| && o.effects[i].ActivationNotice? :: o.effects[i].vouched == f.buyer
    ensures var o := CorrectedRun(t, f, ins);
      f.phase.AwaitingLock? && o.flow.phase.Activated? ==>
        o.effects == [ActivationNotice(f.buyer, o.flow.phase.verifiedBy, f.phase.tx.referenceCode), PendingRecolored(Green)]
  {
    CorrectedRunOnlyFixesVoucher(t, f, ins);
    if f.phase.AwaitingLock? {
      LockWaitOutcome(t, f, ins);
    }
  }
}
