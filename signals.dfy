/** The platform events the two workflows wait for, reduced to the fields
    their predicates read, and those predicates: `has_required_role`
    (calliope.py:89-103), the ticket's `check` (calliope.py:183-188),
    `image_check` (calliope.py:600-607) and `check_reaction`
    (calliope.py:639-645).  Users and roles are compared by id, as the
    platform library compares them. */
module Signals {
  import opened Wrappers
  import opened Text

  const TrashEmoji: string := "\U{1F5D1}\U{FE0F}"
  const LockEmoji: string := "\U{1F512}"
  const ImageExtensions: seq<string> := [".png", ".jpg", ".jpeg", ".gif", ".bmp"]

  /** A guild member: id, the ids of the roles held, and the administrator
      permission. */
  datatype Member = Member(id: int, roles: set<int>, administrator: bool)

  datatype Message = Message(author: int, channel: int, filenames: seq<string>)

  /** A `reaction_add` event: the emoji, the message reacted to and its
      channel, and who reacted. */
  datatype Reaction = Reaction(emoji: string, messageId: int, channel: int, user: Member)

  /** `discord.utils.get(roles, id=...)` / `guild.get_role(...)`: the role if
      the guild has it. */
  function FindRole(roles: set<int>, id: int): (r: Option<int>)
    ensures r.Some? <==> id in roles
    ensures r.Some? ==> r.value == id
  {
    if id in roles then Some(id) else None
  }

  /** `role in user.roles`, where a missing role (`None`) is never held. */
  predicate Holds(m: Member, role: Option<int>) {
    role.Some? && role.value in m.roles
  }

  /** The decision of `has_required_role`: administrators pass, everyone
      else needs the moderator role. */
  predicate HasRequiredRole(author: Member, moderatorId: int): (ok: bool)
    ensures ok <==> author.administrator || moderatorId in author.roles
  {
    author.administrator || Holds(author, FindRole(author.roles, moderatorId))
  }

  /** Gaining roles or the administrator permission never takes access away,
      and without the permission access is exactly holding the role. */
  lemma RequiredRoleMonotone(a: Member, b: Member, moderatorId: int)
    requires a.roles <= b.roles && (a.administrator ==> b.administrator)
    ensures HasRequiredRole(a, moderatorId) ==> HasRequiredRole(b, moderatorId)
    ensures !a.administrator ==> (HasRequiredRole(a, moderatorId) <==> moderatorId in a.roles)
  {
  }

  /** `filename.lower().endswith(('.png', ...))`, the tuple tried in order. */
  function EndsWithAny(s: string, suffixes: seq<string>): bool {
    if suffixes == [] then false else EndsWith(s, suffixes[0]) || EndsWithAny(s, suffixes[1..])
  }

  predicate IsImageName(filename: string) {
    EndsWithAny(Lower(filename), ImageExtensions)
  }

  /** `any(... for attachment in message.attachments)`. */
  function AnyImage(filenames: seq<string>): bool {
    if filenames == [] then false else IsImageName(filenames[0]) || AnyImage(filenames[1..])
  }

  lemma {:induction false} EndsWithAnySpec(s: string, suffixes: seq<string>)
    ensures EndsWithAny(s, suffixes) <==> exists j | 0 <= j < |suffixes| :: EndsWith(s, suffixes[j])
  {
    if suffixes != [] {
      EndsWithAnySpec(s, suffixes[1..]);
      if EndsWithAny(s, suffixes[1..]) {
        var j :| 0 <= j < |suffixes[1..]| && EndsWith(s, suffixes[1..][j]);
        assert EndsWith(s, suffixes[j + 1]);
      }
      if exists j | 0 <= j < |suffixes| :: EndsWith(s, suffixes[j]) {
        var j :| 0 <= j < |suffixes| && EndsWith(s, suffixes[j]);
        if j > 0 {
          assert EndsWith(s, suffixes[1..][j - 1]);
        }
      }
    }
  }

  lemma {:induction false} AnyImageSpec(filenames: seq<string>)
    ensures AnyImage(filenames) <==> exists i | 0 <= i < |filenames| :: IsImageName(filenames[i])
  {
    if filenames != [] {
      AnyImageSpec(filenames[1..]);
      if AnyImage(filenames[1..]) {
        var i :| 0 <= i < |filenames[1..]| && IsImageName(filenames[1..][i]);
        assert IsImageName(filenames[i + 1]);
      }
      if exists i | 0 <= i < |filenames| :: IsImageName(filenames[i]) {
        var i :| 0 <= i < |filenames| && IsImageName(filenames[i]);
        if i > 0 {
          assert IsImageName(filenames[1..][i - 1]);
        }
      }
    }
  }

  /** `image_check`: the proof message comes from the buyer, in the vouch
      channel, with at least one image attachment. */
  predicate ImageCheck(m: Message, buyer: int, vouchChannel: int): (ok: bool)
    ensures ok <==> m.author == buyer && m.channel == vouchChannel &&
                    exists i | 0 <= i < |m.filenames| :: IsImageName(m.filenames[i])
  {
    AnyImageSpec(m.filenames);
    m.author == buyer && m.channel == vouchChannel && AnyImage(m.filenames)
  }

  /** A message passes `image_check` exactly when the buyer sent it in the
      vouch channel and some attachment's name, lower-cased, ends in one of
      the five image extensions. */
  lemma ImageCheckSpec(m: Message, buyer: int, vouchChannel: int)
    ensures ImageCheck(m, buyer, vouchChannel) <==>
              && m.author == buyer
              && m.channel == vouchChannel
              && exists i, j | 0 <= i < |m.filenames| && 0 <= j < |ImageExtensions| ::
                   EndsWith(Lower(m.filenames[i]), ImageExtensions[j])
  {
    AnyImageSpec(m.filenames);
    forall i | 0 <= i < |m.filenames|
      ensures IsImageName(m.filenames[i]) <==>
                exists j | 0 <= j < |ImageExtensions| :: EndsWith(Lower(m.filenames[i]), ImageExtensions[j])
    {
      EndsWithAnySpec(Lower(m.filenames[i]), ImageExtensions);
    }
  }

  /** The extension test ignores case. */
  lemma ImageNameIgnoresCase()
    ensures IsImageName("Proof.PNG")
  {
    assert Lower("Proof.PNG") == "proof.png";
    assert "proof.png"[5..] == ".png";
  }

  /** An extension outside the list, or one without its dot, fails. */
  lemma ImageNameNeedsListedExtension()
    ensures !IsImageName("proof.webp")
    ensures !IsImageName("png")
  {
    LowerKeepsLowercase("proof.webp");
    LowerKeepsLowercase("png");
  }

  /** The ticket's `check`: the delete emoji, from the ticket's member or a
      holder of the moderator role, on a message in the ticket channel. */
  predicate TicketCheck(r: Reaction, member: int, moderatorRole: Option<int>, channel: int): (ok: bool)
    ensures ok ==> r.emoji == TrashEmoji && r.channel == channel
    ensures ok && r.user.id != member ==> moderatorRole.Some? && moderatorRole.value in r.user.roles
    ensures r.emoji == TrashEmoji && r.channel == channel && r.user.id == member ==> ok
    ensures (r.emoji == TrashEmoji && r.channel == channel &&
             moderatorRole.Some? && moderatorRole.value in r.user.roles) ==> ok
  {
    && r.emoji == TrashEmoji
    && (r.user.id == member || Holds(r.user, moderatorRole))
    && r.channel == channel
  }

  /** `check_reaction`: the lock emoji on the vouch notification from a
      holder of the moderator role (looked up again at every reaction). */
  predicate LockCheck(r: Reaction, notification: int, moderatorRole: Option<int>): (ok: bool)
    ensures moderatorRole == None ==> !ok
    ensures ok ==> r.messageId == notification && r.emoji == LockEmoji && moderatorRole.value in r.user.roles
    ensures (r.messageId == notification && r.emoji == LockEmoji &&
             moderatorRole.Some? && moderatorRole.value in r.user.roles) ==> ok
  {
    && r.messageId == notification
    && r.emoji == LockEmoji
    && Holds(r.user, moderatorRole)
  }
}
