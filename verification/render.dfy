/** The structure `loadMessages` and `renderMessage` put on the page: which
    branch is shown, the order of the messages, and which parts each card has.
    Markup text and escaping are not modelled. `LoadMessages` is the listing
    as intended; `LoadMessagesAsWritten` is what the append loop really
    leaves in the list wrapper. */
module Render {
  import opened Wrappers
  import opened Entities
  import opened LocalStorage
  import opened Profiles
  import opened Threads
  import opened Sorting

  /** One rendered message or reply. */
  datatype Card = Card(
    id: int,
    name: string,
    avatar: AvatarData,
    content: string,
    timestamp: string,
    hasReplyForm: bool,
    replies: seq<Card>)

  /** What the messages container shows. */
  datatype View = EmptyPlaceholder | ErrorNotice | Listing(cards: seq<Card>)

  /** `msg.name || 'Anonymous'`. */
  function DisplayName(p: Post): (r: string)
    ensures r != []
    ensures p.name != [] ==> r == p.name
  {
    if p.name == "" then "Anonymous" else p.name
  }

  /** A reply card: no reply button or form, and no replies of its own. */
  predicate IsLeafCard(c: Card) {
    !c.hasReplyForm && c.replies == []
  }

  /** A message card: it has the reply button and form, and only leaf cards
      below it, so the thread is at most one level deep. */
  predicate IsThreadCard(c: Card) {
    c.hasReplyForm && forall i :: 0 <= i < |c.replies| ==> IsLeafCard(c.replies[i])
  }

  /** `renderMessage(msg, isReply)`. The avatar is recomputed from the
      displayed name; the stored one is not used. */
  function RenderPost(p: Post, isReply: bool): (c: Card)
    ensures c.id == p.id && c.content == p.content && c.timestamp == p.timestamp
    ensures c.name == DisplayName(p)
    ensures c.avatar == GenerateAvatar(Some(c.name)) && c.avatar != Sentinel
    ensures isReply ==> IsLeafCard(c)
    ensures !isReply ==> IsThreadCard(c) && |c.replies| == |RepliesOf(p)|
    ensures !isReply ==> forall i :: 0 <= i < |c.replies| ==> c.replies[i] == RenderPost(RepliesOf(p)[i], true)
    decreases if isReply then 0 else 1
  {
    var name := DisplayName(p);
    var replies :=
      if !isReply && p.replies.Some? && |p.replies.value| > 0
      then seq(|p.replies.value|, i requires 0 <= i < |p.replies.value| => RenderPost(p.replies.value[i], true))
      else [];
    Card(p.id, name, GenerateAvatar(Some(name)), p.content, p.timestamp, !isReply, replies)
  }

  /** Replies stored below a reply are never shown: a reply renders the same
      whether or not it carries replies of its own. */
  lemma NestedRepliesHidden(r: Post, nested: Option<seq<Post>>)
    ensures RenderPost(r, true) == RenderPost(r.(replies := nested), true)
  {
  }

  function PostId(p: Post): int {
    p.id
  }

  /** Every post rendered as a top-level card, in the given order. */
  function RenderAll(ps: seq<Post>): (cards: seq<Card>)
    ensures |cards| == |ps|
    ensures forall i :: 0 <= i < |ps| ==> cards[i] == RenderPost(ps[i], false)
  {
    seq(|ps|, i requires 0 <= i < |ps| => RenderPost(ps[i], false))
  }

  /** `loadMessages()`: an unreadable list shows the error notice, an empty
      or missing list the placeholder, and otherwise the messages as thread
      cards, newest (largest id) first (`ListingSpec`). */
  function LoadMessages(store: Store): (v: View)
    ensures v.ErrorNotice? <==> ReadPosts(store).Malformed?
    ensures v.EmptyPlaceholder? <==> PostsOrEmpty(store) == Some([])
  {
    match PostsOrEmpty(store)
    case None => ErrorNotice
    case Some(ps) =>
      if |ps| == 0 then EmptyPlaceholder
      else Listing(RenderAll(SortDesc(ps, PostId)))
  }

  /** A node of a parsed HTML fragment: a text node or an element showing a
      card. */
  datatype Node = TextNode(text: string) | ElementNode(card: Card)

  /** The white space before `<div class="message"` in the template string
      `renderMessage` returns: a line break and twelve spaces. */
  const TemplateLead := "\n" + seq(12, _ => ' ')

  /** The children `messageDiv.innerHTML = renderMessage(msg)` gives
      `messageDiv`: the leading white space becomes a text node before the
      message element, and the trailing white space one after it. */
  function TemplateNodes(p: Post): (ns: seq<Node>)
    ensures |ns| == 3 && ns[1] == ElementNode(RenderPost(p, false))
    ensures ns[0].TextNode? && ns[0].text != [] && AllWhite(ns[0].text)
  {
    [TextNode(TemplateLead), ElementNode(RenderPost(p, false)), TextNode("\n" + seq(8, _ => ' '))]
  }

  predicate AllWhite(s: string) {
    forall i :: 0 <= i < |s| ==> s[i] == ' ' || s[i] == '\n'
  }

  /** The nodes the loop moves into the wrapper: `messageDiv.firstChild` of
      each rendered message, in list order. */
  function FirstChildren(ps: seq<Post>): (ns: seq<Node>)
    ensures |ns| == |ps|
    ensures forall i :: 0 <= i < |ps| ==> ns[i] == TemplateNodes(ps[i])[0]
  {
    seq(|ps|, i requires 0 <= i < |ps| => TemplateNodes(ps[i])[0])
  }

  /** The cards shown by a sequence of nodes: those of its elements, in order. */
  function CardsOf(ns: seq<Node>): (cs: seq<Card>)
    ensures |cs| <= |ns|
  {
    if ns == [] then []
    else (if ns[0].ElementNode? then [ns[0].card] else []) + CardsOf(ns[1..])
  }

  /** Nodes that are all text show no card. */
  lemma {:induction false} TextShowsNoCard(ns: seq<Node>)
    requires forall i :: 0 <= i < |ns| ==> ns[i].TextNode?
    ensures CardsOf(ns) == []
    decreases |ns|
  {
    if ns != [] {
      TextShowsNoCard(ns[1..]);
    }
  }

  /** `loadMessages()` as written: the branches for an unreadable and an empty
      list are as intended, but the loop appends each message's first child,
      which is the white-space text node before the message element, so the
      list wrapper shows no card at all. */
  function LoadMessagesAsWritten(store: Store): (v: View)
    ensures v.ErrorNotice? <==> ReadPosts(store).Malformed?
    ensures v.EmptyPlaceholder? <==> PostsOrEmpty(store) == Some([])
    ensures v.Listing? ==> v.cards == []
  {
    match PostsOrEmpty(store)
    case None => ErrorNotice
    case Some(ps) =>
      if |ps| == 0 then EmptyPlaceholder
      else
        var moved := FirstChildren(SortDesc(ps, PostId));
        TextShowsNoCard(moved);
        Listing(CardsOf(moved))
  }

  /** The discrepancy: for every non-empty stored list the intended listing
      shows one card per message, and the listing as written shows none. */
  lemma AsWrittenListingLosesCards(store: Store)
    requires PostsOrEmpty(store).Some? && PostsOrEmpty(store).value != []
    ensures LoadMessages(store).Listing? && |LoadMessages(store).cards| == |PostsOrEmpty(store).value|
    ensures LoadMessagesAsWritten(store) == Listing([])
  {
  }

  /** A listing shows every stored message once, as a thread card, newest
      (largest id) first. */
  lemma ListingSpec(store: Store)
    ensures var v := LoadMessages(store);
      v.Listing? ==>
      && PostsOrEmpty(store).Some?
      && |v.cards| == |PostsOrEmpty(store).value| > 0
      && (forall i, j :: 0 <= i < j < |v.cards| ==> v.cards[i].id >= v.cards[j].id)
      && (forall i :: 0 <= i < |v.cards| ==> IsThreadCard(v.cards[i]))
      && exists s :: multiset(s) == multiset(PostsOrEmpty(store).value) && v.cards == RenderAll(s)
  {
    if PostsOrEmpty(store).Some? && PostsOrEmpty(store).value != [] {
      var sorted := SortDesc(PostsOrEmpty(store).value, PostId);
      assert forall i, j :: 0 <= i < j < |sorted| ==> PostId(sorted[i]) >= PostId(sorted[j]);
    }
  }

  /** A stored message whose id is larger than every other stored id heads
      the listing. */
  lemma ListingStartsWith(store: Store, m: Post)
    requires PostsOrEmpty(store).Some? && m in PostsOrEmpty(store).value
    requires forall p :: p in PostsOrEmpty(store).value && p != m ==> p.id < m.id
    ensures LoadMessages(store).Listing? && LoadMessages(store).cards[0] == RenderPost(m, false)
  {
    var all := PostsOrEmpty(store).value;
    forall i | 0 <= i < |all| && all[i] != m
      ensures PostId(all[i]) < PostId(m)
    {
      assert all[i] in all;
    }
    LargestFirst(all, m, PostId);
  }
}
