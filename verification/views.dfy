/** The display decisions of the tree and detail views: which capsules and
    entries are shown locked, what an unlocked entry shows, and the labels
    that fall back to fixed text. The markup itself is not modelled. */
module Views {
  import opened Wrappers
  import opened Text
  import opened LockClock
  import opened Media
  import opened Capsules
  import opened Members

  // ---------------------------------------------------------------------
  // Labels with fallbacks.

  /** What a `a || b || "fallback"` chain hands to React: a string, or the
      `createdBy` object itself when it is a user without the wanted field. */
  datatype Label = Plain(text: string) | ObjectChild

  /** Which field of a populated user a view prefers. */
  datatype CreatorField = ByEmail | ByName

  function Preferred(c: Creator, f: CreatorField): Option<string> {
    match c
    case CreatorUser(name, email) => if f == ByEmail then email else name
    case _ => None
  }

  /** `entry.createdBy?.<field> || entry.createdBy || fallback`: the user's
      field when truthy, a non-empty id as is, and the fallback for a missing
      creator or an empty id. A user without the field is itself truthy, so
      the object is what gets rendered. */
  function CreatorLabel(c: Creator, f: CreatorField, fallback: string): (l: Label)
    requires fallback != ""
    ensures l.Plain? ==> l.text != ""
    ensures l.ObjectChild? <==> c.CreatorUser? && !Truthy(Preferred(c, f))
    ensures c.NoCreator? || c == CreatorId("") ==> l == Plain(fallback)
    ensures c.CreatorId? && c.id != "" ==> l == Plain(c.id)
    ensures Truthy(Preferred(c, f)) ==> l == Plain(Preferred(c, f).value)
  {
    match c
    case NoCreator => Plain(fallback)
    case CreatorId(id) => if id != "" then Plain(id) else Plain(fallback)
    case CreatorUser(_, _) =>
      var p := Preferred(c, f);
      if Truthy(p) then Plain(p.value) else ObjectChild
  }

  /** The title of a collaborative capsule in the tree. */
  function TreeTitle(c: Capsule): (t: string)
    ensures t != ""
    ensures Truthy(c.title) ==> t == c.title.value
    ensures !Truthy(c.title) ==> t == "Untitled Capsule"
  {
    OrElse(c.title, "Untitled Capsule")
  }

  // ---------------------------------------------------------------------
  // The member line of the collaborative tree.

  /** A value interpolated into a template literal: a missing one prints
      as "undefined". */
  function TemplateText(o: Option<string>): string {
    if o.Some? then o.value else "undefined"
  }

  function DetailLabels(ds: seq<MemberDetail>): seq<string> {
    seq(|ds|, i requires 0 <= i < |ds| => TemplateText(ds[i].name) + " (" + TemplateText(ds[i].email) + ")")
  }

  function EmailLabels(ms: seq<MemberRef>): seq<string> {
    seq(|ms|, i requires 0 <= i < |ms| => OrElse(ms[i].email, "Unknown Email"))
  }

  /** The labels the member line lists: the detailed members when there are
      any, otherwise the plain members' e-mails. */
  function ShownMembers(c: Capsule): (ls: seq<string>)
    ensures |ls| == if |c.memberDetails| > 0 then |c.memberDetails| else |c.members|
    ensures |c.memberDetails| > 0 ==> forall i :: 0 <= i < |ls| ==>
              ls[i] == TemplateText(c.memberDetails[i].name) + " (" + TemplateText(c.memberDetails[i].email) + ")"
    ensures |c.memberDetails| == 0 ==> forall i :: 0 <= i < |ls| ==>
              ls[i] == OrElse(c.members[i].email, "Unknown Email")
  {
    if |c.memberDetails| > 0 then DetailLabels(c.memberDetails) else EmailLabels(c.members)
  }

  /** The member line: the shown labels joined by ", ", or a fixed text when
      the capsule lists no members at all. */
  function MemberLine(c: Capsule): (s: string)
    ensures |c.memberDetails| == 0 && |c.members| == 0 ==> s == "No members found"
    ensures |c.memberDetails| > 0 || |c.members| > 0 ==> s == Join(ShownMembers(c), ", ")
  {
    if |c.memberDetails| > 0 || |c.members| > 0 then Join(ShownMembers(c), ", ") else "No members found"
  }

  lemma {:induction false} JoinCommaCount(parts: seq<string>)
    requires |parts| >= 1
    requires forall i :: 0 <= i < |parts| ==> ',' !in parts[i]
    ensures CountChar(Join(parts, ", "), ',') == |parts| - 1
  {
    CountCharAbsent(parts[0], ',');
    if |parts| > 1 {
      JoinCommaCount(parts[1..]);
      CountCharAppend(parts[0], ", ", ',');
      CountCharAppend(parts[0] + ", ", Join(parts[1..], ", "), ',');
      assert CountChar(", ", ',') == 1;
    }
  }

  /** When no label contains a comma, splitting the member line at commas
      gives back one piece per shown member. */
  lemma MemberLineCount(c: Capsule)
    requires |c.memberDetails| > 0 || |c.members| > 0
    requires forall i :: 0 <= i < |ShownMembers(c)| ==> ',' !in ShownMembers(c)[i]
    ensures |Split(MemberLine(c), ',')| == |ShownMembers(c)|
  {
    JoinCommaCount(ShownMembers(c));
    SplitCount(MemberLine(c), ',');
  }

  // ---------------------------------------------------------------------
  // The collaborative tree: one summary per capsule.

  datatype EntryStatus = Counting(target: Instant) | OpenLabel

  datatype EntryLine = EntryLine(status: EntryStatus, creator: Label)

  datatype EntriesView = NoEntries | EntryLines(lines: seq<EntryLine>)

  /** `isCapsuleLocked` is computed but no element of the summary uses it;
      it is kept to state the lock rule the view applies. */
  datatype CapsuleSummary = CapsuleSummary(title: string, locked: bool, members: string, entries: EntriesView)

  function EntryLineAt(e: Entry, now: Instant): EntryLine {
    EntryLine(
      if IsLocked(e.lockDate, now) then Counting(e.lockDate.value) else OpenLabel,
      CreatorLabel(e.createdBy, ByEmail, "Unknown"))
  }

  /** One capsule of the collaborative tree. A single `now`, read once per
      capsule, decides the capsule's lock and every entry's lock. */
  function Summarize(c: Capsule, now: Instant): (v: CapsuleSummary)
    ensures v.title == TreeTitle(c) && v.members == MemberLine(c)
    ensures v.locked <==> IsLocked(c.lockDate, now)
    ensures v.entries.NoEntries? <==> |c.entries| == 0
    ensures v.entries.EntryLines? ==> |v.entries.lines| == |c.entries|
    ensures v.entries.EntryLines? ==> forall i :: 0 <= i < |c.entries| ==>
              (v.entries.lines[i].status.Counting? <==> IsLocked(c.entries[i].lockDate, now))
    ensures v.entries.EntryLines? ==> forall i :: 0 <= i < |c.entries| ==>
              v.entries.lines[i].creator == CreatorLabel(c.entries[i].createdBy, ByEmail, "Unknown")
  {
    CapsuleSummary(
      TreeTitle(c),
      IsLocked(c.lockDate, now),
      MemberLine(c),
      if |c.entries| == 0 then NoEntries
      else EntryLines(seq(|c.entries|, i requires 0 <= i < |c.entries| => EntryLineAt(c.entries[i], now))))
  }

  /** Because capsule and entries share one snapshot, a locked capsule
      shows every entry that unlocks no earlier than it as still counting. */
  lemma SharedSnapshot(c: Capsule, now: Instant, i: nat)
    requires i < |c.entries|
    requires c.lockDate.Some? && c.entries[i].lockDate.Some?
    requires c.entries[i].lockDate.value >= c.lockDate.value
    requires Summarize(c, now).locked
    ensures Summarize(c, now).entries.lines[i].status == Counting(c.entries[i].lockDate.value)
  {
  }

  // ---------------------------------------------------------------------
  // The personal tree: one leaf per capsule.

  /** A text shown only when it has a non-blank character:
      `s && s.trim().length > 0`. */
  function NonBlank(s: Option<string>): (r: Option<string>)
    ensures r.Some? ==> r == s && Trim(s.value) != ""
    ensures r.None? ==> s.None? || Trim(s.value) == ""
  {
    if s.Some? && Trim(s.value) != "" then s else None
  }

  /** A text is shown exactly when it has a character other than white space. */
  lemma NonBlankIffNotAllSpace(s: Option<string>)
    ensures NonBlank(s).Some? <==> s.Some? && !AllSpace(s.value, 0, |s.value|)
  {
    if s.Some? {
      TrimEmptyIffBlank(s.value);
    }
  }

  datatype LeafView =
    | LeafTimer(target: Instant)
    | LeafOpen(description: Option<string>, media: seq<Normalized>, text: string)

  /** A leaf of the personal tree: a countdown while locked; once unlocked
      the non-blank description, the media as the tree classifies them, and
      the content when it is not blank. */
  function Leaf(c: Capsule, now: Instant): (v: LeafView)
    ensures v.LeafTimer? <==> IsLocked(c.lockDate, now)
    ensures v.LeafTimer? ==> v.target == c.lockDate.value
    ensures v.LeafOpen? ==> v.description == NonBlank(c.description)
    ensures v.LeafOpen? ==> |v.media| == |c.media|
    ensures v.LeafOpen? ==> forall i :: 0 <= i < |c.media| ==> v.media[i] == TreeNormalize(c.media[i])
    ensures v.LeafOpen? ==> (v.text != "" <==> NonBlank(c.content).Some?)
    ensures v.LeafOpen? && v.text != "" ==> v.text == c.content.value
  {
    if IsLocked(c.lockDate, now) then LeafTimer(c.lockDate.value)
    else
      var content := NonBlank(c.content);
      LeafOpen(
        NonBlank(c.description),
        seq(|c.media|, i requires 0 <= i < |c.media| => TreeNormalize(c.media[i])),
        if content.Some? then content.value else "")
  }

  // ---------------------------------------------------------------------
  // The detail views: entries.

  /** What an entry's content area shows; `RenderFailure` is a render that
      throws. */
  datatype EntryBody =
    | Ticking(target: Instant)
    | MediaList(items: seq<Rendered>)
    | Note(text: string)
    | RenderFailure

  function RenderAll(ms: seq<MediaRef>): (r: seq<Rendered>)
    ensures |r| == |ms|
  {
    seq(|ms|, i requires 0 <= i < |ms| => DetailRender(ms[i]))
  }

  /** An entry in the collaborative layout of the capsule detail: a countdown
      while locked; once unlocked its media when it has any, otherwise its
      content, with "No content" for an empty one. */
  function DetailEntryBody(e: Entry, now: Instant): (b: EntryBody)
    ensures b.Ticking? <==> IsLocked(e.lockDate, now)
    ensures b.Ticking? ==> b.target == e.lockDate.value
    ensures b.MediaList? <==> !IsLocked(e.lockDate, now) && |e.media| > 0
    ensures b.MediaList? ==> |b.items| == |e.media| && forall i :: 0 <= i < |e.media| ==> b.items[i] == DetailRender(e.media[i])
    ensures b.Note? ==> b.text != "" && (Truthy(e.content) ==> b.text == e.content.value)
    ensures b.Note? && !Truthy(e.content) ==> b.text == "No content"
    ensures !b.RenderFailure?
  {
    if IsLocked(e.lockDate, now) then Ticking(e.lockDate.value)
    else if |e.media| > 0 then MediaList(RenderAll(e.media))
    else Note(OrElse(e.content, "No content"))
  }

  /** The entry body of the collaborative detail view as written: its media
      branch calls a `renderMedia` that the component neither defines nor
      imports, so evaluating it throws. */
  function CollabEntryBodyAsWritten(e: Entry, now: Instant): (b: EntryBody)
    ensures b.RenderFailure? <==> !IsLocked(e.lockDate, now) && |e.media| > 0
    ensures !b.RenderFailure? ==> b == DetailEntryBody(e, now)
  {
    if IsLocked(e.lockDate, now) then Ticking(e.lockDate.value)
    else if |e.media| > 0 then RenderFailure
    else Note(OrElse(e.content, "No content"))
  }

  /** An unlocked entry with one image makes the collaborative detail view
      throw. */
  lemma RenderMediaUndefined(now: Instant)
    ensures CollabEntryBodyAsWritten(Entry(None, [UrlString("a.png")], None, NoCreator), now).RenderFailure?
  {
  }

  /** The entry body with the media branch rendering each item by the rule
      the same component applies to the capsule's own media. */
  function CollabEntryBody(e: Entry, now: Instant): (b: EntryBody)
    ensures !b.RenderFailure?
    ensures b.Ticking? <==> IsLocked(e.lockDate, now)
    ensures b.MediaList? <==> !IsLocked(e.lockDate, now) && |e.media| > 0
    ensures b.MediaList? ==> |b.items| == |e.media| && forall i :: 0 <= i < |e.media| ==> b.items[i] == DetailRender(e.media[i])
    ensures b.Note? && Truthy(e.content) ==> b.text == e.content.value
    ensures b.Note? && !Truthy(e.content) ==> b.text == "No content"
  {
    if IsLocked(e.lockDate, now) then Ticking(e.lockDate.value)
    else if |e.media| > 0 then MediaList(RenderAll(e.media))
    else Note(OrElse(e.content, "No content"))
  }

  /** Corrected, the collaborative detail shows an entry exactly as the
      capsule detail does, and differs from the code as written only where
      that code throws. */
  lemma CollabEntryBodyAgrees(e: Entry, now: Instant)
    ensures CollabEntryBody(e, now) == DetailEntryBody(e, now)
    ensures CollabEntryBodyAsWritten(e, now) != CollabEntryBody(e, now) <==>
              CollabEntryBodyAsWritten(e, now).RenderFailure?
  {
  }

  /** "Added by" in the collaborative detail view. */
  function CollabDetailCreator(e: Entry): (l: Label)
    ensures l.Plain? ==> l.text != ""
    ensures l.ObjectChild? <==> e.createdBy.CreatorUser? && !Truthy(e.createdBy.name)
    ensures e.createdBy.NoCreator? || e.createdBy == CreatorId("") ==> l == Plain("Unknown Member")
    ensures e.createdBy.CreatorId? && e.createdBy.id != "" ==> l == Plain(e.createdBy.id)
    ensures e.createdBy.CreatorUser? && Truthy(e.createdBy.name) ==> l == Plain(e.createdBy.name.value)
  {
    CreatorLabel(e.createdBy, ByName, "Unknown Member")
  }

  /** "Added by" in the capsule detail view and in the collaborative tree. */
  function DetailCreator(e: Entry): (l: Label)
    ensures l.Plain? ==> l.text != ""
    ensures l.ObjectChild? <==> e.createdBy.CreatorUser? && !Truthy(e.createdBy.email)
    ensures e.createdBy.NoCreator? || e.createdBy == CreatorId("") ==> l == Plain("Unknown")
    ensures e.createdBy.CreatorId? && e.createdBy.id != "" ==> l == Plain(e.createdBy.id)
    ensures e.createdBy.CreatorUser? && Truthy(e.createdBy.email) ==> l == Plain(e.createdBy.email.value)
  {
    CreatorLabel(e.createdBy, ByEmail, "Unknown")
  }

  /** The capsule detail view and the collaborative tree credit every entry
      to the same creator. */
  lemma TreeAndDetailCreatorsAgree(c: Capsule, now: Instant, i: nat)
    requires i < |c.entries|
    ensures Summarize(c, now).entries.lines[i].creator == DetailCreator(c.entries[i])
  {
  }

  // ---------------------------------------------------------------------
  // The detail views: the capsule itself.

  datatype CapsuleBody =
    | CapsuleTimer(target: Instant)
    | CapsuleOpen(text: Option<string>, media: seq<Rendered>)

  /** The capsule section of both detail views: a countdown while locked,
      otherwise the content when truthy and the media. */
  function DetailCapsuleBody(c: Capsule, now: Instant): (b: CapsuleBody)
    ensures b.CapsuleTimer? <==> IsLocked(c.lockDate, now)
    ensures b.CapsuleTimer? ==> b.target == c.lockDate.value
    ensures b.CapsuleOpen? ==> (b.text.Some? <==> Truthy(c.content)) && (b.text.Some? ==> b.text == c.content)
    ensures b.CapsuleOpen? ==> |b.media| == |c.media|
    ensures b.CapsuleOpen? ==> forall i :: 0 <= i < |c.media| ==> b.media[i] == DetailRender(c.media[i])
  {
    if IsLocked(c.lockDate, now) then CapsuleTimer(c.lockDate.value)
    else CapsuleOpen(if Truthy(c.content) then c.content else None, RenderAll(c.media))
  }

  /** The capsule's lock does not look at its entries: replacing every entry
      leaves the capsule section unchanged. */
  lemma CapsuleLockIgnoresEntries(c: Capsule, es: seq<Entry>, now: Instant)
    ensures DetailCapsuleBody(c.(entries := es), now) == DetailCapsuleBody(c, now)
  {
  }

  /** The collaborative detail shows the description only for a capsule that
      has no lock date at all. */
  predicate CollabDescriptionShown(c: Capsule) {
    c.lockDate.None?
  }

  /** A capsule whose lock date has passed is shown unlocked, yet its
      description stays hidden. */
  lemma DescriptionHiddenAfterUnlock(c: Capsule, now: Instant)
    requires c.lockDate == Some(now)
    ensures DetailCapsuleBody(c, now).CapsuleOpen?
    ensures !CollabDescriptionShown(c)
  {
  }
}
