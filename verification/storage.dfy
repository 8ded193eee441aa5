/** `localStorage` as a map from keys to stored values. A stored value that
    `JSON.parse` rejects, or that has the wrong shape for its key, is
    `Unparseable`. */
module LocalStorage {
  import opened Entities

  const ProfileKey := "bookPlanetUserProfile"
  const MessagesKey := "bookPlanetMessages"
  const RepliesKey := "bookPlanetReplies"
  const StatsKey := "bookPlanetStats"
  const VisitsKey := "bookPlanetVisits"

  datatype Value =
    | ProfileValue(profile: Profile)
    | PostsValue(posts: seq<Post>)
    | StatsValue(saved: SavedStats)
    | NumberValue(n: int)
    | Unparseable

  type Store = map<string, Value>

  /** What a read of one key yields: nothing stored, something that does not
      parse as the expected shape, or a parsed value. */
  datatype Slot<T> = Absent | Malformed | Present(value: T)

  /** Reads the message list stored under `MessagesKey`. */
  function ReadPosts(store: Store): Slot<seq<Post>> {
    if MessagesKey !in store then Absent
    else if store[MessagesKey].PostsValue? then Present(store[MessagesKey].posts)
    else Malformed
  }

  /** `JSON.parse(localStorage.getItem(MessagesKey) || '[]')`: a missing list
      reads as empty; `None` is a parse failure. */
  function PostsOrEmpty(store: Store): (r: Wrappers.Option<seq<Post>>)
    ensures r.None? <==> ReadPosts(store).Malformed?
    ensures ReadPosts(store).Absent? ==> r == Wrappers.Some([])
    ensures ReadPosts(store).Present? ==> r == Wrappers.Some(ReadPosts(store).value)
  {
    match ReadPosts(store)
    case Absent => Wrappers.Some([])
    case Malformed => Wrappers.None
    case Present(ps) => Wrappers.Some(ps)
  }

  /** Reads the profile stored under `ProfileKey`. */
  function ReadProfile(store: Store): Slot<Profile> {
    if ProfileKey !in store then Absent
    else if store[ProfileKey].ProfileValue? then Present(store[ProfileKey].profile)
    else Malformed
  }

  /** The five keys are different strings (they differ in length). */
  lemma KeysDistinct()
    ensures ProfileKey != MessagesKey && ProfileKey != RepliesKey && ProfileKey != StatsKey && ProfileKey != VisitsKey
    ensures MessagesKey != RepliesKey && MessagesKey != StatsKey && MessagesKey != VisitsKey
    ensures RepliesKey != StatsKey && RepliesKey != VisitsKey && StatsKey != VisitsKey
  {
    assert |ProfileKey| == 21 && |MessagesKey| == 18 && |RepliesKey| == 17;
    assert |StatsKey| == 15 && |VisitsKey| == 16;
  }

  /** Every key outside `keys` has the same entry (or absence) in both stores. */
  ghost predicate AgreeExcept(a: Store, b: Store, keys: set<string>) {
    forall k :: k !in keys ==> (k in a <==> k in b) && (k in a ==> a[k] == b[k])
  }

  /** `localStorage.setItem(MessagesKey, JSON.stringify(ps))`. */
  function WritePosts(store: Store, ps: seq<Post>): (r: Store)
    ensures ReadPosts(r) == Present(ps)
    ensures ReadProfile(r) == ReadProfile(store)
    ensures AgreeExcept(store, r, {MessagesKey})
  {
    KeysDistinct();
    store[MessagesKey := PostsValue(ps)]
  }

  /** Two changes confined to two key sets are together confined to their union. */
  lemma AgreeChain(a: Store, b: Store, c: Store, k1: set<string>, k2: set<string>)
    requires AgreeExcept(a, b, k1) && AgreeExcept(b, c, k2)
    ensures AgreeExcept(a, c, k1 + k2)
  {
  }

  /** A store that agrees with another outside some keys reads the same
      message list when the messages key is not among them. */
  lemma SamePosts(a: Store, b: Store, keys: set<string>)
    requires AgreeExcept(a, b, keys) && MessagesKey !in keys
    ensures ReadPosts(a) == ReadPosts(b) && PostsOrEmpty(a) == PostsOrEmpty(b)
  {
  }
}
