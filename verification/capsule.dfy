/** The capsule records the views receive from the server. A field the
    server may omit, send as `null` or send empty is an `Option` when the
    views tell those apart from a value, and a plain (possibly empty)
    sequence when they only ask whether it has elements. */
module Capsules {
  import opened Wrappers
  import opened LockClock
  import opened Media

  /** `entry.createdBy`: absent, an unpopulated user id, or a populated user. */
  datatype Creator =
    | NoCreator
    | CreatorId(id: string)
    | CreatorUser(name: Option<string>, email: Option<string>)

  datatype Entry = Entry(
    content: Option<string>,
    media: seq<MediaRef>,
    lockDate: Option<Instant>,
    createdBy: Creator)

  /** An element of `memberDetails`; either field may be missing. */
  datatype MemberDetail = MemberDetail(name: Option<string>, email: Option<string>)

  /** An element of `members`, of which only the e-mail is shown. */
  datatype MemberRef = MemberRef(email: Option<string>)

  datatype Capsule = Capsule(
    kind: string,
    title: Option<string>,
    description: Option<string>,
    content: Option<string>,
    createdAt: Instant,
    lockDate: Option<Instant>,
    media: seq<MediaRef>,
    entries: seq<Entry>,
    memberDetails: seq<MemberDetail>,
    members: seq<MemberRef>)
}
