/** The purchase ticket: `/stocks` (calliope.py:479-486) shows one button
    per item (`ViewStockButtons`, calliope.py:239-276); a click on an item
    in stock offers the `BuyNow` view (calliope.py:108-211), whose Confirm
    creates a private ticket channel and then waits up to 24 hours for the
    delete reaction (calliope.py:183-195).

    Each click starts a flow of its own (the stock view is never cleared,
    so one member can open several).  A flow is a state machine: `Click`
    gives its first phase and `Step` reacts to one event.  The platform's
    side of the exchange (channel creation, messages, the reaction wait and
    its timeout) is reduced to the events a flow receives and the effects
    it produces. */
module Ticket {
  import opened Wrappers
  import opened Text
  import opened Stocks
  import opened Signals

  /** The settings a step reads: `MODERATOR` and the guild's role ids. */
  datatype Config = Config(moderatorId: int, guildRoles: set<int>)

  /** The reply to `/stocks`. */
  datatype StockView = NoItems | View(buttons: seq<Button>)

  datatype Phase =
    | Crashed                                  // KeyError: the item left the table
    | OutOfStock(item: string)
    | Confirming(item: string, quantity: int)  // the BuyNow view is shown
    | Canceled
    | Unwatched(channel: int)                  // created, then the moderator role was missing
    | Open(channel: int, moderatorRole: int)   // waiting for the delete reaction
    | Closed(channel: int)
    | LeftOpen(channel: int)                   // the 24-hour wait ran out

  /** One flow: the member who clicked, and where the flow stands. */
  datatype Flow = Flow(member: int, phase: Phase)

  datatype Event =
    | ConfirmClicked(channel: int)  // Confirm, and the id the new channel gets
    | CancelClicked
    | ReactionAdded(r: Reaction)
    | TimedOut

  datatype Input = Input(cfg: Config, event: Event)

  datatype Effect =
    | OutOfStockReply(item: string)
    | ConfirmationOffer(item: string)
    | ChannelCreated(channel: int, moderatorsMayRead: bool)
    | TicketCreatedReply(item: string, quantity: int, channel: int)
    | GhostPing(channel: int)
    | WelcomePosted(channel: int, item: string)
    | CancelReply
    | ChannelDeleted(channel: int)

  datatype Outcome = Outcome(flow: Flow, effects: seq<Effect>)

  /** `/stocks`: no items means the "no items" reply; otherwise one button
      per item, in table order. */
  function ShowStocks(t: Table): (v: StockView)
    requires WellFormed(t)
    ensures v == NoItems <==> |t.order| == 0
    ensures v.View? ==> |v.buttons| == |t.order| && forall i | 0 <= i < |v.buttons| :: v.buttons[i].customId == t.order[i]
    ensures v.View? ==> forall i | 0 <= i < |v.buttons| :: v.buttons[i].text == Label(t.order[i], t.stock[t.order[i]])
  {
    if |t.order| == 0 then NoItems else View(Buttons(t))
  }

  /** `on_button_click`: the quantity is read from the live table at the
      moment of the click. */
  function Click(t: Table, member: int, item: string): (o: Outcome)
    ensures o.flow.member == member
    ensures o.flow.phase == Crashed <==> item !in t.stock
    ensures o.flow.phase == OutOfStock(item) <==> item in t.stock && t.stock[item] <= 0
    ensures o.flow.phase.Confirming? <==> item in t.stock && t.stock[item] > 0
    ensures o.flow.phase.Confirming? ==> o.flow.phase == Confirming(item, t.stock[item]) && o.effects == [ConfirmationOffer(item)]
    ensures o.flow.phase == Crashed ==> o.effects == []
  {
    match PickItem(t, item)
    case Missing => Outcome(Flow(member, Crashed), [])
    case SoldOut => Outcome(Flow(member, OutOfStock(item)), [OutOfStockReply(item)])
    case Available(q) => Outcome(Flow(member, Confirming(item, q)), [ConfirmationOffer(item)])
  }

  /** The reaction that closes an open ticket (the `check` of
      calliope.py:183-188, with the role looked up at calliope.py:174). */
  predicate DeleteAt(f: Flow, i: Input)
    requires f.phase.Open?
  {
    i.event.ReactionAdded? && TicketCheck(i.event.r, f.member, Some(f.phase.moderatorRole), f.phase.channel)
  }

  /** One event.  Confirm does not look at the table again: the quantity is
      the one seen at the click. */
  function Step(cfg: Config, f: Flow, e: Event): (o: Outcome)
    ensures o.flow.member == f.member
    ensures Terminal(f.phase) ==> o == Outcome(f, [])
  {
    var idle := Outcome(f, []);
    match f.phase
    case Confirming(item, quantity) =>
      if e.CancelClicked? then Outcome(Flow(f.member, Canceled), [CancelReply])
      else if !e.ConfirmClicked? then idle
      else if quantity <= 0 then Outcome(Flow(f.member, OutOfStock(item)), [OutOfStockReply(item)])
      else
        var role := FindRole(cfg.guildRoles, cfg.moderatorId);
        var created := [ChannelCreated(e.channel, role.Some?), TicketCreatedReply(item, quantity, e.channel)];
        if role == None then Outcome(Flow(f.member, Unwatched(e.channel)), created)
        else Outcome(Flow(f.member, Open(e.channel, role.value)),
                     created + [GhostPing(e.channel), WelcomePosted(e.channel, item)])
    case Open(channel, _) =>
      if DeleteAt(f, Input(cfg, e)) then Outcome(Flow(f.member, Closed(channel)), [ChannelDeleted(channel)])
      else if e.TimedOut? then Outcome(Flow(f.member, LeftOpen(channel)), [])
      else idle
    case _ => idle
  }

  function Run(f: Flow, ins: seq<Input>): (o: Outcome)
    ensures o.flow.member == f.member
    decreases |ins|
  {
    if ins == [] then Outcome(f, [])
    else
      var first := Step(ins[0].cfg, f, ins[0].event);
      var rest := Run(first.flow, ins[1..]);
      Outcome(rest.flow, first.effects + rest.effects)
  }

  /** Confirm creates the ticket channel exactly when the offered quantity
      is positive; moderators may read it exactly when the guild has the
      moderator role, and only then does the flow go on to wait for the
      delete reaction.  Cancel ends the flow without a channel. */
  lemma ConfirmSpec(cfg: Config, f: Flow, channel: int)
    requires f.phase.Confirming?
    ensures var o := Step(cfg, f, ConfirmClicked(channel));
            && (f.phase.quantity <= 0 <==> o.flow.phase == OutOfStock(f.phase.item))
            && (f.phase.quantity > 0 ==>
                  && o.effects[0] == ChannelCreated(channel, cfg.moderatorId in cfg.guildRoles)
                  && o.effects[1] == TicketCreatedReply(f.phase.item, f.phase.quantity, channel)
                  && (o.flow.phase == Open(channel, cfg.moderatorId) <==> cfg.moderatorId in cfg.guildRoles)
                  && (o.flow.phase == Unwatched(channel) <==> cfg.moderatorId !in cfg.guildRoles))
    ensures Step(cfg, f, CancelClicked) == Outcome(Flow(f.member, Canceled), [CancelReply])
  {
  }

  /** A flow that began with a click never takes the out-of-stock branch of
      Confirm: a click only offers Confirm for a positive quantity. */
  lemma ConfirmAfterClick(t: Table, member: int, item: string, cfg: Config, channel: int)
    requires Click(t, member, item).flow.phase.Confirming?
    ensures !Step(cfg, Click(t, member, item).flow, ConfirmClicked(channel)).flow.phase.OutOfStock?
    ensures Step(cfg, Click(t, member, item).flow, ConfirmClicked(channel)).effects[0].ChannelCreated?
  {
  }

  predicate Terminal(p: Phase) {
    !p.Confirming? && !p.Open?
  }

  lemma {:induction false} TerminalStays(f: Flow, ins: seq<Input>)
    requires Terminal(f.phase)
    ensures Run(f, ins) == Outcome(f, [])
    decreases |ins|
  {
    if ins != [] {
      TerminalStays(f, ins[1..]);
    }
  }

  /** The reaction wait ends with the delete reaction ... */
  ghost predicate ClosesFirst(f: Flow, ins: seq<Input>)
    requires f.phase.Open?
  {
    exists k | 0 <= k < |ins| :: DeleteAt(f, ins[k]) && forall j | 0 <= j < k :: !ins[j].event.TimedOut?
  }

  /** ... or with the timeout. */
  ghost predicate TimesOutFirst(f: Flow, ins: seq<Input>)
    requires f.phase.Open?
  {
    exists k | 0 <= k < |ins| :: ins[k].event.TimedOut? && forall j | 0 <= j < k :: !DeleteAt(f, ins[j])
  }

  lemma CloseShift(f: Flow, ins: seq<Input>)
    requires f.phase.Open? && ins != []
    requires !DeleteAt(f, ins[0]) && !ins[0].event.TimedOut?
    ensures ClosesFirst(f, ins) <==> ClosesFirst(f, ins[1..])
    ensures TimesOutFirst(f, ins) <==> TimesOutFirst(f, ins[1..])
  {
    if ClosesFirst(f, ins) {
      var k :| 0 <= k < |ins| && DeleteAt(f, ins[k]) && forall j | 0 <= j < k :: !ins[j].event.TimedOut?;
      assert k > 0 && ins[1..][k - 1] == ins[k];
      assert forall j | 0 <= j < k - 1 :: ins[1..][j] == ins[j + 1];
    }
    if ClosesFirst(f, ins[1..]) {
      var k :| 0 <= k < |ins[1..]| && DeleteAt(f, ins[1..][k]) && forall j | 0 <= j < k :: !ins[1..][j].event.TimedOut?;
      assert ins[k + 1] == ins[1..][k];
      assert forall j | 1 <= j < k + 1 :: ins[j] == ins[1..][j - 1];
    }
    if TimesOutFirst(f, ins) {
      var k :| 0 <= k < |ins| && ins[k].event.TimedOut? && forall j | 0 <= j < k :: !DeleteAt(f, ins[j]);
      assert k > 0 && ins[1..][k - 1] == ins[k];
      assert forall j | 0 <= j < k - 1 :: ins[1..][j] == ins[j + 1];
    }
    if TimesOutFirst(f, ins[1..]) {
      var k :| 0 <= k < |ins[1..]| && ins[1..][k].event.TimedOut? && forall j | 0 <= j < k :: !DeleteAt(f, ins[1..][j]);
      assert ins[k + 1] == ins[1..][k];
      assert forall j | 1 <= j < k + 1 :: ins[j] == ins[1..][j - 1];
    }
  }

  /** An open ticket's channel is deleted exactly once if the delete
      reaction (the trash emoji in the ticket channel, from the member or a
      moderator) comes before the 24-hour timeout, and never otherwise; no
      other channel is touched and nothing else is produced.  The flow ends
      closed or left open accordingly, and stays open while neither has
      happened. */
  lemma {:induction false} TicketLifecycle(f: Flow, ins: seq<Input>)
    requires f.phase.Open?
    ensures var o := Run(f, ins);
            && o.effects == (if ClosesFirst(f, ins) then [ChannelDeleted(f.phase.channel)] else [])
            && (o.flow.phase == Closed(f.phase.channel) <==> ClosesFirst(f, ins))
            && (o.flow.phase == LeftOpen(f.phase.channel) <==> TimesOutFirst(f, ins))
            && (!ClosesFirst(f, ins) && !TimesOutFirst(f, ins) ==> o.flow == f)
    decreases |ins|
  {
    if ins != [] {
      var first := Step(ins[0].cfg, f, ins[0].event);
      if DeleteAt(f, ins[0]) {
        TerminalStays(first.flow, ins[1..]);
        assert ClosesFirst(f, ins) by {
          assert DeleteAt(f, ins[0]);
        }
      } else if ins[0].event.TimedOut? {
        TerminalStays(first.flow, ins[1..]);
        assert TimesOutFirst(f, ins) by {
          assert ins[0].event.TimedOut?;
        }
      } else {
        TicketLifecycle(f, ins[1..]);
        CloseShift(f, ins);
      }
    }
  }

  /** The number of channels a list of effects creates. */
  function CreatedCount(effects: seq<Effect>): nat {
    if effects == [] then 0
    else (if effects[0].ChannelCreated? then 1 else 0) + CreatedCount(effects[1..])
  }

  lemma {:induction false} CreatedCountAppend(a: seq<Effect>, b: seq<Effect>)
    ensures CreatedCount(a + b) == CreatedCount(a) + CreatedCount(b)
    decreases |a|
  {
    if a == [] {
      assert a + b == b;
    } else {
      assert (a + b)[1..] == a[1..] + b;
      CreatedCountAppend(a[1..], b);
    }
  }

  lemma CreatedCountSingle(x: Effect)
    ensures CreatedCount([x]) == if x.ChannelCreated? then 1 else 0
  {
    assert [x][1..] == [];
  }

  /** One step creates a channel only from the confirmation view. */
  lemma StepCreates(cfg: Config, f: Flow, e: Event)
    ensures CreatedCount(Step(cfg, f, e).effects) <= 1
    ensures !f.phase.Confirming? ==> CreatedCount(Step(cfg, f, e).effects) == 0
  {
    var effects := Step(cfg, f, e).effects;
    if |effects| == 1 {
      assert effects == [effects[0]];
      CreatedCountSingle(effects[0]);
    } else if |effects| > 1 {
      var a, b := effects[..1], effects[1..];
      assert effects == a + b && a == [effects[0]];
      CreatedCountAppend(a, b);
      CreatedCountSingle(effects[0]);
      assert forall k | 0 <= k < |b| :: !b[k].ChannelCreated?;
      NoneCreated(b);
    }
  }

  lemma {:induction false} NoneCreated(effects: seq<Effect>)
    requires forall k | 0 <= k < |effects| :: !effects[k].ChannelCreated?
    ensures CreatedCount(effects) == 0
    decreases |effects|
  {
    if effects != [] {
      NoneCreated(effects[1..]);
    }
  }

  /** A flow creates at most one ticket channel, however many times its
      buttons or reactions arrive. */
  lemma {:induction false} ChannelsAtMostOnce(f: Flow, ins: seq<Input>)
    ensures CreatedCount(Run(f, ins).effects) <= 1
    ensures !f.phase.Confirming? ==> CreatedCount(Run(f, ins).effects) == 0
    decreases |ins|
  {
    if ins == [] {
      return;
    }
    var first := Step(ins[0].cfg, f, ins[0].event);
    CreatedCountAppend(first.effects, Run(first.flow, ins[1..]).effects);
    StepCreates(ins[0].cfg, f, ins[0].event);
    if first.flow.phase.Open? {
      TicketLifecycle(first.flow, ins[1..]);
    } else if Terminal(first.flow.phase) {
      TerminalStays(first.flow, ins[1..]);
    } else {
      ChannelsAtMostOnce(first.flow, ins[1..]);
    }
    if f.phase.Open? {
      TicketLifecycle(f, ins);
    }
  }
}
