/** The records the browser code keeps in local storage. */
module Entities {
  import opened Wrappers

  /** `{char, color}`: the letter shown in a coloured circle. */
  datatype AvatarData = AvatarData(letter: string, color: string)

  /** The visitor profile: nickname, avatar and creation time (`Date.now()`). */
  datatype Profile = Profile(nickname: string, avatar: AvatarData, createdAt: int)

  /** A guestbook message or a reply. A message's `replies` may be missing
      in stored data; a reply is created without one. */
  datatype Post = Post(
    id: int,
    name: string,
    avatar: AvatarData,
    content: string,
    timestamp: string,
    replies: Option<seq<Post>>)

  /** The per-session scanner counters. */
  datatype SessionStats = SessionStats(frames: int, valid: int, success: int)

  /** The part of the statistics that is written under the stats key. */
  datatype SavedStats = SavedStats(totalScans: int, successScans: int, session: SessionStats)
}
