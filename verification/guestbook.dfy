/** The guestbook controller of assets/js/feedback.js: the visible flag, the
    reply forms, the two submit actions and the clear action, each a function
    from the page state before to the page state after. Alerts and toasts are
    recorded as a `Notice`; the remote mirror write is best-effort and its
    failure is swallowed, so it leaves no trace here. The parameter `nick` is
    the nickname the profile generator's random draws produce
    (`Profiles.DrawNickname`); it is used only when no profile is stored. */
module Guestbook {
  import opened Wrappers
  import opened Text
  import opened Entities
  import opened LocalStorage
  import opened Profiles
  import opened Threads
  import opened Render
  import opened Sorting

  /** What the page shows: section visibility, the ids of the open reply
      forms, the two input fields and the rendered list. */
  datatype Ui = Ui(visible: bool, openForms: set<int>, nameField: string, messageField: string, view: View)

  /** The page state and local storage together. */
  datatype Page = Page(ui: Ui, store: Store)

  /** The user-visible reaction to an action. */
  datatype Notice = NoNotice | EmptyContentAlert | FailureAlert | Posted

  datatype Step = Step(page: Page, notice: Notice)

  /** The reply form (and its inputs) of message `id` is on the page. */
  predicate HasForm(view: View, id: int) {
    view.Listing? && exists i :: 0 <= i < |view.cards| && view.cards[i].id == id && view.cards[i].hasReplyForm
  }

  /** At most one reply form is open, and only forms on the page are open. */
  predicate AtMostOneForm(ui: Ui) {
    |ui.openForms| <= 1 && forall id :: id in ui.openForms ==> HasForm(ui.view, id)
  }

  /** `loadMessages()`: the list is rebuilt from storage, and the rebuilt
      reply forms all start hidden. */
  function Rerender(ui: Ui, store: Store): (u: Ui)
    ensures u.view == LoadMessages(store) && u.openForms == {}
    ensures AtMostOneForm(u)
    ensures u.visible == ui.visible && u.nameField == ui.nameField && u.messageField == ui.messageField
  {
    ui.(view := LoadMessages(store), openForms := {})
  }

  /** `toggleReplyForm(id)`: every open form is closed, then the form of `id`
      is opened unless it was the open one. Without such a form nothing happens. */
  function ToggleReplyForm(ui: Ui, id: int): (u: Ui)
    ensures u.(openForms := ui.openForms) == ui
    ensures !HasForm(ui.view, id) ==> u == ui
    ensures HasForm(ui.view, id) ==> |u.openForms| <= 1 && u.openForms <= {id}
    ensures HasForm(ui.view, id) ==> (id in u.openForms <==> id !in ui.openForms)
    ensures AtMostOneForm(ui) ==> AtMostOneForm(u)
  {
    if !HasForm(ui.view, id) then ui
    else if id in ui.openForms then ui.(openForms := {})
    else ui.(openForms := {id})
  }

  /** Opening a form and toggling it again leaves every form closed. */
  lemma ToggleTwiceCloses(ui: Ui, id: int)
    requires HasForm(ui.view, id) && id !in ui.openForms
    ensures ToggleReplyForm(ToggleReplyForm(ui, id), id).openForms == {}
  {
  }

  /** `show()`: the section becomes visible, the list is reloaded, a profile
      is obtained (and created if need be), and an empty name field is filled
      with its nickname. Without the section element nothing happens. */
  function Show(pg: Page, sectionPresent: bool, nick: string, now: int): (r: Page)
    ensures !sectionPresent ==> r == pg
    ensures sectionPresent ==> r.ui.visible && r.ui.view == LoadMessages(pg.store) && r.ui.openForms == {}
    ensures sectionPresent ==> ReadProfile(r.store).Present? && AgreeExcept(pg.store, r.store, {ProfileKey})
    ensures sectionPresent && pg.ui.nameField == "" ==> r.ui.nameField == ReadProfile(r.store).value.nickname
    ensures pg.ui.nameField != "" ==> r.ui.nameField == pg.ui.nameField
    ensures ReadProfile(pg.store).Present? ==> ReadProfile(r.store) == ReadProfile(pg.store)
    ensures sectionPresent ==> r.store == ObtainProfile(pg.store, nick, now).store
    ensures sectionPresent ==> r.ui.messageField == pg.ui.messageField
  {
    if !sectionPresent then pg
    else
      var ui := Rerender(pg.ui.(visible := true), pg.store);
      var prof := ObtainProfile(pg.store, nick, now);
      var name := if ui.nameField == "" then prof.profile.nickname else ui.nameField;
      Page(ui.(nameField := name), prof.store)
  }

  /** `hide()`. */
  function Hide(ui: Ui, sectionPresent: bool): (u: Ui)
    ensures sectionPresent ==> !u.visible
    ensures u.(visible := ui.visible) == ui
    ensures !sectionPresent ==> u == ui
  {
    if sectionPresent then ui.(visible := false) else ui
  }

  /** `toggle()`: hide when visible, show otherwise. */
  function Toggle(pg: Page, sectionPresent: bool, nick: string, now: int): (r: Page)
    ensures sectionPresent ==> r.ui.visible == !pg.ui.visible
    ensures !sectionPresent ==> r == pg
    ensures pg.ui.visible ==> r.store == pg.store
    ensures ReadProfile(pg.store).Present? ==> ReadProfile(r.store) == ReadProfile(pg.store)
  {
    if pg.ui.visible then Page(Hide(pg.ui, sectionPresent), pg.store)
    else Show(pg, sectionPresent, nick, now)
  }

  /** Toggling twice with the section present returns to the original
      visibility. */
  lemma ToggleTwiceRestoresVisibility(pg: Page, n1: string, t1: int, n2: string, t2: int)
    ensures Toggle(Toggle(pg, true, n1, t1), true, n2, t2).ui.visible == pg.ui.visible
  {
  }

  /** The author of a new message or reply: the trimmed name typed in, or the
      profile nickname when that is empty. */
  function Author(typed: string, profile: Profile): (name: string)
    ensures Trim(typed) != [] ==> name == Trim(typed)
    ensures Trim(typed) == [] ==> name == profile.nickname
  {
    var t := Trim(typed);
    if t != [] then t else profile.nickname
  }

  /** The message `submitMessage` appends. */
  predicate IsNewMessage(m: Post, typedName: string, typedContent: string, profile: Profile, now: int, stamp: string) {
    && m.id == now
    && m.name == Author(typedName, profile)
    && m.avatar == GenerateAvatar(Some(m.name))
    && m.content == Trim(typedContent)
    && m.timestamp == stamp
    && m.replies == Some([])
  }

  /** The message object `submitMessage` builds from the two fields. */
  function NewMessage(typedName: string, typedContent: string, profile: Profile, now: int, stamp: string): (m: Post)
    ensures IsNewMessage(m, typedName, typedContent, profile, now, stamp)
  {
    var name := Author(typedName, profile);
    Post(now, name, GenerateAvatar(Some(name)), Trim(typedContent), stamp, Some([]))
  }

  /** The part of `submitMessage` after the profile is obtained: read the
      list, append, write back, clear the fields and re-render. */
  function AppendMessage(ui: Ui, store: Store, msg: Post): (r: Step)
    ensures r.notice == Posted <==> !ReadPosts(store).Malformed?
    ensures r.notice == Posted ==>
      && ReadPosts(r.page.store) == Present(PostsOrEmpty(store).value + [msg])
      && ReadProfile(r.page.store) == ReadProfile(store)
      && r.page.ui.nameField == "" && r.page.ui.messageField == ""
      && r.page.ui.view == LoadMessages(r.page.store)
    ensures r.notice != Posted ==> r == Step(Page(ui, store), FailureAlert)
    ensures r.notice == Posted ==> r.page.ui.visible == ui.visible && r.page.ui.openForms == {}
    ensures AgreeExcept(store, r.page.store, {MessagesKey})
  {
    match PostsOrEmpty(store)
    case None => Step(Page(ui, store), FailureAlert)
    case Some(ps) =>
      var written := WritePosts(store, ps + [msg]);
      Step(Page(Rerender(ui.(nameField := "", messageField := ""), written), written), Posted)
  }

  /** `submitMessage()`. An all-white-space message is refused with an alert
      and nothing changes. Otherwise the profile is obtained (possibly
      written), the message list is read (a missing list is empty, an
      unreadable one ends in the failure alert) and the new message is
      appended at the end; the fields are cleared and the list re-rendered. */
  function SubmitMessage(pg: Page, nick: string, now: int, stamp: string): (r: Step)
    ensures Trim(pg.ui.messageField) == [] ==> r == Step(pg, EmptyContentAlert)
    ensures r.notice == Posted <==> Trim(pg.ui.messageField) != [] && !ReadPosts(pg.store).Malformed?
    ensures r.notice == Posted ==>
      && ReadProfile(r.page.store).Present?
      && ReadPosts(r.page.store)
         == Present(PostsOrEmpty(pg.store).value
                    + [NewMessage(pg.ui.nameField, pg.ui.messageField, ReadProfile(r.page.store).value, now, stamp)])
      && r.page.ui.nameField == "" && r.page.ui.messageField == ""
      && r.page.ui.view == LoadMessages(r.page.store)
    ensures r.notice != Posted ==> ReadPosts(r.page.store) == ReadPosts(pg.store)
    ensures Trim(pg.ui.messageField) != [] && ReadPosts(pg.store).Malformed? ==>
      r.notice == FailureAlert && r.page.ui == pg.ui
    ensures Trim(pg.ui.messageField) != [] ==>
      ReadProfile(r.page.store) == Present(ObtainProfile(pg.store, nick, now).profile)
    ensures r.notice == Posted ==> r.page.ui.visible == pg.ui.visible && r.page.ui.openForms == {}
    ensures ReadProfile(pg.store).Present? ==> ReadProfile(r.page.store) == ReadProfile(pg.store)
    ensures AgreeExcept(pg.store, r.page.store, {ProfileKey, MessagesKey})
  {
    if Trim(pg.ui.messageField) == [] then Step(pg, EmptyContentAlert)
    else
      var prof := ObtainProfile(pg.store, nick, now);
      var msg := NewMessage(pg.ui.nameField, pg.ui.messageField, prof.profile, now, stamp);
      SamePosts(pg.store, prof.store, {ProfileKey});
      var r := AppendMessage(pg.ui, prof.store, msg);
      AgreeChain(pg.store, prof.store, r.page.store, {ProfileKey}, {MessagesKey});
      r
  }

  /** After appending a message whose id exceeds every earlier id, the
      listing starts with that message's card. */
  lemma AppendedShownFirst(store: Store, before: seq<Post>, m: Post)
    requires ReadPosts(store) == Present(before + [m])
    requires forall p :: p in before ==> p.id < m.id
    ensures LoadMessages(store).Listing? && LoadMessages(store).cards[0] == RenderPost(m, false)
  {
    var all := before + [m];
    assert m in all by { assert all[|before|] == m; }
    forall p | p in all && p != m
      ensures p.id < m.id
    {
      assert p in before;
    }
    ListingStartsWith(store, m);
  }

  /** A posted message whose id is larger than every stored id is shown at
      the top of the re-rendered list. */
  lemma NewestMessageShownFirst(pg: Page, nick: string, now: int, stamp: string)
    requires forall p :: p in PostsOrEmpty(pg.store).GetOr([]) ==> p.id < now
    requires SubmitMessage(pg, nick, now, stamp).notice == Posted
    ensures var v := SubmitMessage(pg, nick, now, stamp).page.ui.view;
      v.Listing? && v.cards[0].id == now && v.cards[0].content == Trim(pg.ui.messageField)
  {
    var r := SubmitMessage(pg, nick, now, stamp);
    var m := NewMessage(pg.ui.nameField, pg.ui.messageField, ReadProfile(r.page.store).value, now, stamp);
    AppendedShownFirst(r.page.store, PostsOrEmpty(pg.store).value, m);
  }

  /** The reply `submitReply` appends. */
  predicate IsNewReply(p: Post, typedName: string, typedContent: string, profile: Profile, now: int, stamp: string) {
    && p.id == now
    && p.name == Author(typedName, profile)
    && p.avatar == GenerateAvatar(Some(p.name))
    && p.content == Trim(typedContent)
    && p.timestamp == stamp
    && p.replies == None
  }

  /** The reply object `submitReply` builds from the form's fields. */
  function NewReply(typedName: string, typedContent: string, profile: Profile, now: int, stamp: string): (p: Post)
    ensures IsNewReply(p, typedName, typedContent, profile, now, stamp)
  {
    var name := Author(typedName, profile);
    Post(now, name, GenerateAvatar(Some(name)), Trim(typedContent), stamp, None)
  }

  /** The part of `submitReply` after the profile is obtained: read the list,
      find the first message with `id`, append the reply, write back and
      re-render. */
  function AddReply(ui: Ui, store: Store, id: int, reply: Post): (r: Step)
    ensures r.notice == Posted <==>
      PostsOrEmpty(store).Some? && !NoIdBefore(PostsOrEmpty(store).value, id, |PostsOrEmpty(store).value|)
    ensures r.notice == Posted ==>
      && ReadPosts(r.page.store) == Present(AppendReply(PostsOrEmpty(store).value, id, reply))
      && ReadProfile(r.page.store) == ReadProfile(store)
      && r.page.ui.view == LoadMessages(r.page.store) && r.page.ui.openForms == {}
    ensures r.notice != Posted ==> r.page == Page(ui, store)
    ensures r.notice != Posted ==> r.notice == (if PostsOrEmpty(store).None? then FailureAlert else NoNotice)
    ensures r.notice == Posted ==>
      r.page.ui.visible == ui.visible && r.page.ui.nameField == ui.nameField && r.page.ui.messageField == ui.messageField
    ensures AgreeExcept(store, r.page.store, {MessagesKey})
  {
    match PostsOrEmpty(store)
    case None => Step(Page(ui, store), FailureAlert)
    case Some(ps) =>
      match FindById(ps, id)
      case None => Step(Page(ui, store), NoNotice)
      case Some(k) =>
        var written := WritePosts(store, AppendReply(ps, id, reply));
        Step(Page(Rerender(ToggleReplyForm(ui, id), written), written), Posted)
  }

  /** `submitReply(id)` with the reply form's two field values. It does
      nothing when the form is not on the page; an all-white-space reply is
      refused with an alert; an unreadable list ends in the failure alert;
      a reply to an id no stored message carries is dropped silently. */
  function SubmitReply(pg: Page, id: int, typedName: string, typedContent: string,
                       nick: string, now: int, stamp: string): (r: Step)
    ensures !HasForm(pg.ui.view, id) ==> r == Step(pg, NoNotice)
    ensures HasForm(pg.ui.view, id) && Trim(typedContent) == [] ==> r == Step(pg, EmptyContentAlert)
    ensures r.notice == Posted <==>
      && HasForm(pg.ui.view, id) && Trim(typedContent) != []
      && PostsOrEmpty(pg.store).Some?
      && !NoIdBefore(PostsOrEmpty(pg.store).value, id, |PostsOrEmpty(pg.store).value|)
    ensures r.notice == Posted ==>
      && ReadPosts(r.page.store).Present?
      && ReadProfile(r.page.store).Present?
      && ReadPosts(r.page.store).value
         == AppendReply(PostsOrEmpty(pg.store).value, id,
                        NewReply(typedName, typedContent, ReadProfile(r.page.store).value, now, stamp))
      && r.page.ui.view == LoadMessages(r.page.store) && r.page.ui.openForms == {}
    ensures r.notice != Posted ==> ReadPosts(r.page.store) == ReadPosts(pg.store) && r.page.ui == pg.ui
    ensures HasForm(pg.ui.view, id) && Trim(typedContent) != [] && r.notice != Posted ==>
      r.notice == (if PostsOrEmpty(pg.store).None? then FailureAlert else NoNotice)
    ensures HasForm(pg.ui.view, id) && Trim(typedContent) != [] ==>
      ReadProfile(r.page.store) == Present(ObtainProfile(pg.store, nick, now).profile)
    ensures r.notice == Posted ==>
      && r.page.ui.visible == pg.ui.visible
      && r.page.ui.nameField == pg.ui.nameField && r.page.ui.messageField == pg.ui.messageField
    ensures ReadProfile(pg.store).Present? ==> ReadProfile(r.page.store) == ReadProfile(pg.store)
    ensures AgreeExcept(pg.store, r.page.store, {ProfileKey, MessagesKey})
  {
    if !HasForm(pg.ui.view, id) then Step(pg, NoNotice)
    else if Trim(typedContent) == [] then Step(pg, EmptyContentAlert)
    else
      var prof := ObtainProfile(pg.store, nick, now);
      var reply := NewReply(typedName, typedContent, prof.profile, now, stamp);
      SamePosts(pg.store, prof.store, {ProfileKey});
      var r := AddReply(pg.ui, prof.store, id, reply);
      AgreeChain(pg.store, prof.store, r.page.store, {ProfileKey}, {MessagesKey});
      r
  }

  /** With the listing `loadMessages` produces as written, no reply form is
      on the page: toggling a form and submitting a reply do nothing, for
      every id. */
  lemma NoReplyFormsAsWritten(pg: Page, id: int, typedName: string, typedContent: string,
                              nick: string, now: int, stamp: string)
    requires pg.ui.view == LoadMessagesAsWritten(pg.store)
    ensures !HasForm(pg.ui.view, id)
    ensures ToggleReplyForm(pg.ui, id) == pg.ui
    ensures SubmitReply(pg, id, typedName, typedContent, nick, now, stamp) == Step(pg, NoNotice)
  {
  }

  /** A successful reply adds exactly one reply to the whole store. */
  lemma ReplyAddsOne(pg: Page, id: int, typedName: string, typedContent: string,
                     nick: string, now: int, stamp: string)
    requires SubmitReply(pg, id, typedName, typedContent, nick, now, stamp).notice == Posted
    ensures ReplyCount(ReadPosts(SubmitReply(pg, id, typedName, typedContent, nick, now, stamp).page.store).value)
      == ReplyCount(PostsOrEmpty(pg.store).value) + 1
  {
    var r := SubmitReply(pg, id, typedName, typedContent, nick, now, stamp);
    var reply := NewReply(typedName, typedContent, ReadProfile(r.page.store).value, now, stamp);
    AppendReplyCount(PostsOrEmpty(pg.store).value, id, reply);
  }

  /** `clearAllMessages()`: after confirmation the message list and the
      legacy replies key are removed and the placeholder is shown; without
      confirmation nothing changes. */
  function ClearAllMessages(pg: Page, confirmed: bool): (r: Page)
    ensures !confirmed ==> r == pg
    ensures confirmed ==>
      && MessagesKey !in r.store && RepliesKey !in r.store
      && AgreeExcept(pg.store, r.store, {MessagesKey, RepliesKey})
      && r.ui.view == EmptyPlaceholder
      && r.ui.visible == pg.ui.visible
    ensures confirmed ==>
      r.ui.nameField == pg.ui.nameField && r.ui.messageField == pg.ui.messageField && r.ui.openForms == {}
  {
    if !confirmed then pg
    else
      var store := pg.store - {MessagesKey, RepliesKey};
      Page(Rerender(pg.ui, store), store)
  }
}
