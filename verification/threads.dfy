/** The thread store behind the guestbook: the message list kept under the
    messages key, and the reply-append rule of `submitReply`. */
module Threads {
  import opened Wrappers
  import opened Entities

  /** No post before position `k` carries `id`. */
  predicate NoIdBefore(posts: seq<Post>, id: int, k: nat)
    requires k <= |posts|
  {
    forall j :: 0 <= j < k ==> posts[j].id != id
  }

  /** `findIndex(msg => msg.id === id)`: the first position carrying `id`. */
  function FindById(posts: seq<Post>, id: int): (r: Option<nat>)
    ensures r.Some? ==> r.value < |posts| && posts[r.value].id == id && NoIdBefore(posts, id, r.value)
    ensures r.None? ==> NoIdBefore(posts, id, |posts|)
  {
    if posts == [] then None
    else if posts[0].id == id then Some(0)
    else
      match FindById(posts[1..], id)
      case None => None
      case Some(k) => Some(k + 1)
  }

  /** The replies of a post; a missing `replies` field reads as none. */
  function RepliesOf(p: Post): seq<Post> {
    p.replies.GetOr([])
  }

  /** `if (!m.replies) m.replies = []; m.replies.push(reply)`. */
  function WithReply(p: Post, reply: Post): (q: Post)
    ensures RepliesOf(q) == RepliesOf(p) + [reply]
    ensures q.replies.Some?
    ensures q.(replies := p.replies) == p
    ensures q != p
  {
    var q := p.(replies := Some(RepliesOf(p) + [reply]));
    assert |RepliesOf(q)| != |RepliesOf(p)|;
    q
  }

  /** The store side of `submitReply`: the reply goes to the first message
      carrying `id`; without such a message the list is returned as it was. */
  function AppendReply(posts: seq<Post>, id: int, reply: Post): (r: seq<Post>)
    ensures |r| == |posts|
    ensures NoIdBefore(posts, id, |posts|) <==> r == posts
    ensures forall i :: 0 <= i < |posts| && posts[i].id == id && NoIdBefore(posts, id, i) ==>
      r[i] == WithReply(posts[i], reply)
    ensures forall i :: 0 <= i < |posts| && !(posts[i].id == id && NoIdBefore(posts, id, i)) ==>
      r[i] == posts[i]
  {
    match FindById(posts, id)
    case None => posts
    case Some(k) =>
      var r := posts[k := WithReply(posts[k], reply)];
      assert r[k] != posts[k];
      assert forall i :: 0 <= i < |posts| && i != k ==> !(posts[i].id == id && NoIdBefore(posts, id, i));
      r
  }

  /** The number of replies across a message list. */
  function ReplyCount(posts: seq<Post>): nat {
    if posts == [] then 0 else |RepliesOf(posts[0])| + ReplyCount(posts[1..])
  }

  /** Replacing one message changes the total by the change in its reply count. */
  lemma {:induction false} ReplyCountUpdate(posts: seq<Post>, k: nat, q: Post)
    requires k < |posts|
    ensures ReplyCount(posts[k := q]) + |RepliesOf(posts[k])| == ReplyCount(posts) + |RepliesOf(q)|
  {
    if k > 0 {
      ReplyCountUpdate(posts[1..], k - 1, q);
      assert posts[k := q][1..] == posts[1..][k - 1 := q];
    } else {
      assert posts[k := q][1..] == posts[1..];
    }
  }

  /** A reply to an existing message adds exactly one reply to the whole
      store; a reply to a missing id adds none. */
  lemma AppendReplyCount(posts: seq<Post>, id: int, reply: Post)
    ensures ReplyCount(AppendReply(posts, id, reply)) ==
      if NoIdBefore(posts, id, |posts|) then ReplyCount(posts) else ReplyCount(posts) + 1
  {
    match FindById(posts, id)
    case None =>
    case Some(k) =>
      ReplyCountUpdate(posts, k, WithReply(posts[k], reply));
  }
}
