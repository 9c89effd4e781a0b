/** Collaborator input: the free-text member parser of the collaborative
    capsule form, the plain e-mail list of the capsule manager, and the
    regular expression `(.*)<(.*)>` both rest on. */
module Members {
  import opened Wrappers
  import opened Text
  import opened Grouping

  /** A proposed collaborator as sent to the server. */
  datatype Member = Member(name: string, email: string)

  // ---------------------------------------------------------------------
  // The regular expression `(.*)<(.*)>` as `String.prototype.match` runs it.

  /** The characters `.` does not match. */
  predicate IsLineTerminator(c: char) {
    c == '\n' || c == '\r' || c == '\U{2028}' || c == '\U{2029}'
  }

  predicate NoTerminator(s: string, lo: int, hi: int)
    requires 0 <= lo <= hi <= |s|
  {
    forall k :: lo <= k < hi ==> !IsLineTerminator(s[k])
  }

  /** A `<` at i followed on the same line by a `>` at j: what the pattern
      needs to match at all. */
  predicate Pair(s: string, i: int, j: int) {
    0 <= i < j < |s| && s[i] == '<' && s[j] == '>' && NoTerminator(s, i, j)
  }

  /** The first line terminator at or after `from`, or the end. */
  function LineEnd(s: string, from: nat): (e: nat)
    requires from <= |s|
    ensures from <= e <= |s| && NoTerminator(s, from, e)
    ensures e < |s| ==> IsLineTerminator(s[e])
    decreases |s| - from
  {
    if from == |s| || IsLineTerminator(s[from]) then from else LineEnd(s, from + 1)
  }

  /** The last position in [lo, hi) holding `c`. */
  function LastIndex(s: string, c: char, lo: nat, hi: nat): (r: Option<nat>)
    requires lo <= hi <= |s|
    ensures r.Some? ==> lo <= r.value < hi && s[r.value] == c
    ensures r.Some? ==> forall k :: r.value < k < hi ==> s[k] != c
    ensures r.None? ==> forall k :: lo <= k < hi ==> s[k] != c
    decreases hi
  {
    if hi == lo then None
    else if s[hi - 1] == c then Some(hi - 1)
    else LastIndex(s, c, lo, hi - 1)
  }

  /** Where a match starts, and where its `<` and `>` are. Group 1 is
      s[start..lt] and group 2 is s[lt+1..gt]. */
  datatype Hit = Hit(start: nat, lt: nat, gt: nat)

  /** The match within one line s[from..e], if any: the greedy groups take
      the last `>` of the line and the last `<` before it. */
  function LineMatch(s: string, from: nat, e: nat): Option<Hit>
    requires from <= e <= |s|
  {
    match LastIndex(s, '>', from, e)
    case None => None
    case Some(j) =>
      match LastIndex(s, '<', from, j)
      case None => None
      case Some(i) => Some(Hit(from, i, j))
  }

  /** A match within the line starts at the line's start, and its groups
      are as greedy as the line allows. */
  lemma LineHit(s: string, from: nat)
    requires from <= |s|
    requires LineMatch(s, from, LineEnd(s, from)).Some?
    ensures var h := LineMatch(s, from, LineEnd(s, from)).value;
      && Pair(s, h.lt, h.gt) && h.start == from && from <= h.lt
      && NoTerminator(s, from, h.lt)
      && (forall k :: h.lt < k < h.gt ==> s[k] != '<')
      && (forall k :: h.gt < k < |s| && NoTerminator(s, h.gt, k) ==> s[k] != '>')
  {
    var e := LineEnd(s, from);
    var h := LineMatch(s, from, e).value;
    assert NoTerminator(s, h.lt, h.gt);
    forall k | h.gt < k < |s| && NoTerminator(s, h.gt, k) ensures s[k] != '>' {
      if e < |s| {
        assert IsLineTerminator(s[e]);
      }
    }
  }

  /** A line with no match holds no pair. */
  lemma NoPairInLine(s: string, from: nat, i: int, j: int)
    requires from <= |s|
    requires LineMatch(s, from, LineEnd(s, from)).None?
    requires from <= i <= LineEnd(s, from)
    ensures !Pair(s, i, j)
  {
  }

  /** The search `s.match(/(.*)<(.*)>/)` from position `from`: it tries the
      start positions in order, and within a line the first position that
      matches is the line's start. */
  function MatchFrom(s: string, from: nat): (h: Option<Hit>)
    requires from <= |s|
    ensures h.None? <==> forall i, j :: from <= i ==> !Pair(s, i, j)
    ensures h.Some? ==> Pair(s, h.value.lt, h.value.gt) && from <= h.value.start <= h.value.lt
    ensures h.Some? ==> NoTerminator(s, h.value.start, h.value.lt)
    ensures h.Some? ==> h.value.start == from || IsLineTerminator(s[h.value.start - 1])
    ensures h.Some? ==> forall i, j :: from <= i < h.value.start ==> !Pair(s, i, j)
    ensures h.Some? ==> forall k :: h.value.lt < k < h.value.gt ==> s[k] != '<'
    ensures h.Some? ==> forall k :: h.value.gt < k < |s| && NoTerminator(s, h.value.gt, k) ==> s[k] != '>'
    decreases |s| - from
  {
    var e := LineEnd(s, from);
    var found := LineMatch(s, from, e);
    if found.Some? then
      LineHit(s, from);
      found
    else
      forall i, j | from <= i <= e
        ensures !Pair(s, i, j)
      {
        NoPairInLine(s, from, i, j);
      }
      if e == |s| then None
      else MatchFrom(s, e + 1)
  }

  /** The regular expression's result on a whole token. */
  function RegexMatch(s: string): Option<Hit> {
    MatchFrom(s, 0)
  }

  // ---------------------------------------------------------------------
  // parseMemberInput

  /** One trimmed token: `Name <email>` gives both parts trimmed; anything
      the pattern does not match is an e-mail with the name "Unknown". */
  function ParseToken(t: string): (m: Member)
    ensures (forall i, j :: !Pair(t, i, j)) ==> m == Member("Unknown", t)
    ensures '<' !in t || '>' !in t ==> m == Member("Unknown", t)
    ensures RegexMatch(t).Some? ==>
              var h := RegexMatch(t).value;
              h.start <= h.lt < h.gt < |t| && m == Groups(t, h)
  {
    NoBracketNoPair(t);
    match RegexMatch(t)
    case Some(h) => Groups(t, h)
    case None => Member("Unknown", t)
  }

  /** The member a hit gives: both capture groups trimmed, the first as the
      name and the second as the e-mail. */
  function Groups(t: string, h: Hit): Member
    requires h.start <= h.lt < h.gt <= |t|
  {
    Member(Trim(t[h.start..h.lt]), Trim(t[h.lt + 1..h.gt]))
  }

  /** A pair needs both a `<` and a `>`. */
  lemma NoBracketNoPair(t: string)
    ensures '<' !in t || '>' !in t ==> RegexMatch(t).None?
  {
    if RegexMatch(t).Some? {
      var h := RegexMatch(t).value;
      assert t[h.lt] == '<' && t[h.gt] == '>';
    }
  }

  /** Parses the trimmed form of each comma-separated piece. */
  function ParsePieces(pieces: seq<string>): (r: seq<Member>)
    ensures |r| == |pieces|
    ensures forall i :: 0 <= i < |r| ==> r[i] == ParseToken(Trim(pieces[i]))
  {
    if pieces == [] then [] else [ParseToken(Trim(pieces[0]))] + ParsePieces(pieces[1..])
  }

  /** `parseMemberInput`: split on commas, trim, match. Empty pieces are kept
      (as members with the name "Unknown" and an empty e-mail). */
  function ParseMemberInput(input: string): seq<Member> {
    ParsePieces(Split(input, ','))
  }

  /** Occurrences of `c` in `s`. */
  function CountChar(s: string, c: char): nat {
    if s == [] then 0 else (if s[0] == c then 1 else 0) + CountChar(s[1..], c)
  }

  lemma CountCharAppend(a: string, b: string, c: char)
    ensures CountChar(a + b, c) == CountChar(a, c) + CountChar(b, c)
  {
    if a == [] {
      assert a + b == b;
    } else {
      assert (a + b)[0] == a[0];
      assert (a + b)[1..] == a[1..] + b;
      CountCharAppend(a[1..], b, c);
      assert CountChar(a + b, c) == (if a[0] == c then 1 else 0) + CountChar(a[1..] + b, c);
    }
  }

  /** Splitting yields one more piece than there are separators. */
  lemma {:induction false} SplitCount(s: string, c: char)
    ensures |Split(s, c)| == CountChar(s, c) + 1
    decreases |s|
  {
    if c !in s {
      assert CountChar(s, c) == 0 by { CountCharAbsent(s, c); }
    } else {
      var i := IndexOf(s, c);
      assert s == s[..i] + [c] + s[i + 1..];
      CountCharAppend(s[..i] + [c], s[i + 1..], c);
      CountCharAppend(s[..i], [c], c);
      CountCharAbsent(s[..i], c);
      SplitCount(s[i + 1..], c);
    }
  }

  lemma CountCharAbsent(s: string, c: char)
    requires c !in s
    ensures CountChar(s, c) == 0
  {
  }

  /** One member per comma-separated piece: the count is the number of commas
      plus one, whatever the pieces contain. */
  lemma MemberCount(input: string)
    ensures |ParseMemberInput(input)| == CountChar(input, ',') + 1
  {
    SplitCount(input, ',');
  }

  /** A piece without `<` becomes an "Unknown" member whose e-mail is the
      trimmed piece. */
  lemma BarePiece(input: string, i: nat)
    requires i < |Split(input, ',')|
    requires '<' !in Split(input, ',')[i]
    ensures ParseMemberInput(input)[i] == Member("Unknown", Trim(Split(input, ',')[i]))
  {
    NoAngleAfterTrim(Split(input, ',')[i]);
  }

  /** Trimming cannot introduce a `<`. */
  lemma NoAngleAfterTrim(p: string)
    requires '<' !in p
    ensures '<' !in Trim(p)
  {
    TrimIsInfix(p);
    var lo, hi :| 0 <= lo <= hi <= |p| && Trim(p) == p[lo..hi];
    forall k | 0 <= k < |Trim(p)|
      ensures Trim(p)[k] != '<'
    {
      assert Trim(p)[k] == p[lo + k];
    }
  }

  // ---------------------------------------------------------------------
  // Round trip: formatting members as `Name <email>` and parsing them back.

  /** The display form the form's placeholder asks for. */
  function Format(m: Member): string {
    m.name + " <" + m.email + ">"
  }

  /** No white space at either end. */
  predicate IsTrimmed(s: string) {
    s == [] || (!IsSpace(s[0]) && !IsSpace(s[|s| - 1]))
  }

  /** Members that survive a round trip: a non-empty trimmed name and a
      trimmed e-mail, neither holding a comma or a line break, the e-mail
      holding no angle bracket. */
  predicate WellFormed(m: Member) {
    && m.name != [] && IsTrimmed(m.name) && IsTrimmed(m.email)
    && ',' !in m.name && ',' !in m.email
    && (forall k :: 0 <= k < |m.name| ==> !IsLineTerminator(m.name[k]))
    && (forall k :: 0 <= k < |m.email| ==> !IsLineTerminator(m.email[k]))
    && '<' !in m.email && '>' !in m.email
  }

  lemma TrimOfTrimmed(s: string)
    requires IsTrimmed(s)
    ensures Trim(s) == s
  {
    if s != [] {
      assert TrimLo(s) == 0;
      assert TrimHi(s, 0) == |s|;
    }
  }

  lemma TrimSpaceAround(s: string, before: string, after: string)
    requires s != [] && IsTrimmed(s)
    requires forall k :: 0 <= k < |before| ==> IsSpace(before[k])
    requires forall k :: 0 <= k < |after| ==> IsSpace(after[k])
    ensures Trim(before + s + after) == s
    decreases |before| + |after|
  {
    var t := before + s + after;
    if before != [] {
      assert t[0] == before[0];
      assert t[1..] == before[1..] + s + after;
      TrimSpaceAround(s, before[1..], after);
      assert TrimLo(t) == 1 + TrimLo(t[1..]);
      TrimDropFront(t);
    } else if after != [] {
      assert t[|t| - 1] == after[|after| - 1];
      assert t[..|t| - 1] == before + s + after[..|after| - 1];
      TrimSpaceAround(s, before, after[..|after| - 1]);
      TrimDropBack(t);
    } else {
      assert t == s;
      TrimOfTrimmed(s);
    }
  }

  lemma TrimDropFront(t: string)
    requires t != [] && IsSpace(t[0])
    ensures Trim(t) == Trim(t[1..])
  {
    var lo := TrimLo(t[1..]);
    assert TrimLo(t) == 1 + lo;
    TrimHiShift(t, lo);
    var hi := TrimHi(t[1..], lo);
    assert t[1 + lo..1 + hi] == t[1..][lo..hi];
  }

  lemma {:induction false} TrimHiShift(t: string, lo: nat)
    requires t != [] && lo <= |t| - 1
    ensures TrimHi(t, 1 + lo) == 1 + TrimHi(t[1..], lo)
    decreases |t|
  {
    if |t| - 1 == lo || !IsSpace(t[|t| - 1]) {
    } else {
      assert t[..|t| - 1][1..] == t[1..][..|t[1..]| - 1];
      TrimHiShift(t[..|t| - 1], lo);
    }
  }

  lemma TrimDropBack(t: string)
    requires t != [] && IsSpace(t[|t| - 1])
    ensures Trim(t) == Trim(t[..|t| - 1])
  {
    var u := t[..|t| - 1];
    var lo := TrimLo(t);
    if lo == |t| {
      TrimLoAllSpace(u);
      TrimLoAllSpace(t);
      assert TrimLo(u) == |u|;
    } else {
      TrimLoPrefix(t);
      assert TrimLo(u) == lo;
    }
  }

  lemma {:induction false} TrimLoAllSpace(s: string)
    ensures TrimLo(s) == |s| <==> AllSpace(s, 0, |s|)
  {
  }

  lemma {:induction false} TrimLoPrefix(t: string)
    requires t != [] && TrimLo(t) < |t|
    ensures TrimLo(t[..|t| - 1]) == TrimLo(t) || TrimLo(t) == |t| - 1
    decreases |t|
  {
    if !IsSpace(t[0]) {
    } else if |t| > 1 {
      assert t[..|t| - 1][1..] == t[1..][..|t| - 2];
      TrimLoPrefix(t[1..]);
    }
  }

  /** Where the pattern matches a formatted member: from the start, at the
      `<` after the name and the closing `>`. */
  lemma FormatHit(m: Member)
    requires WellFormed(m)
    ensures RegexMatch(Format(m)) == Some(Hit(0, |m.name| + 1, |Format(m)| - 1))
  {
    var f := Format(m);
    var n := |m.name|;
    assert f[n + 1] == '<' && f[|f| - 1] == '>';
    assert NoTerminator(f, 0, |f|) by {
      forall k | 0 <= k < |f| ensures !IsLineTerminator(f[k]) {
        if k < n { assert f[k] == m.name[k]; }
        else if n + 2 <= k < |f| - 1 { assert f[k] == m.email[k - n - 2]; }
      }
    }
    assert Pair(f, n + 1, |f| - 1);
    var h := RegexMatch(f).value;
    assert h.start == 0;
    assert h.gt == |f| - 1;
    assert forall k :: n + 2 <= k < |f| - 1 ==> f[k] == m.email[k - n - 2];
    assert h.lt == n + 1;
  }

  /** The two groups of the match on a formatted member. */
  lemma FormatGroups(m: Member)
    ensures Format(m)[0..|m.name| + 1] == m.name + " "
    ensures Format(m)[|m.name| + 2..|Format(m)| - 1] == m.email
  {
    var f, n := Format(m), |m.name|;
    forall k | 0 <= k < n + 1 ensures f[0..n + 1][k] == (m.name + " ")[k] {
    }
    forall k | 0 <= k < |m.email| ensures f[n + 2..|f| - 1][k] == m.email[k] {
    }
  }

  /** A formatted member parses back to itself. */
  lemma ParseFormat(m: Member)
    requires WellFormed(m)
    ensures ParseToken(Format(m)) == m
  {
    FormatHit(m);
    FormatGroups(m);
    TrimSpaceAround(m.name, [], " ");
    TrimOfTrimmed(m.email);
  }

  /** Members formatted and joined with ", ", as the form's placeholder
      shows them. */
  function FormatList(ms: seq<Member>): string
    requires |ms| >= 1
  {
    if |ms| == 1 then Format(ms[0]) else Format(ms[0]) + ", " + FormatList(ms[1..])
  }

  lemma FormatShape(m: Member)
    requires WellFormed(m)
    ensures Format(m) != [] && IsTrimmed(Format(m)) && ',' !in Format(m)
  {
    var f := Format(m);
    var n := |m.name|;
    assert f[0] == m.name[0];
    forall k | 0 <= k < |f| ensures f[k] != ',' {
      if k < n { assert f[k] == m.name[k]; }
      else if n + 2 <= k < |f| - 1 { assert f[k] == m.email[k - n - 2]; }
    }
  }

  lemma ParsePiecesCons(p: string, ps: seq<string>)
    ensures ParsePieces([p] + ps) == [ParseToken(Trim(p))] + ParsePieces(ps)
  {
    assert ([p] + ps)[1..] == ps;
  }

  lemma HeadPiece(lead: string, m: Member)
    requires WellFormed(m)
    requires Blank(lead)
    ensures ',' !in lead + Format(m)
    ensures ParseToken(Trim(lead + Format(m))) == m
  {
    var f := Format(m);
    FormatShape(m);
    TrimSpaceAround(f, lead, []);
    assert lead + f + [] == lead + f;
    ParseFormat(m);
  }

  /** All members well formed. */
  predicate AllWellFormed(ms: seq<Member>) {
    forall i :: 0 <= i < |ms| ==> WellFormed(ms[i])
  }

  /** Leading white space without commas. */
  predicate Blank(lead: string) {
    forall k :: 0 <= k < |lead| ==> IsSpace(lead[k]) && lead[k] != ','
  }

  lemma RegroupSeparator(a: string, b: string, c: string)
    ensures a + (b + ", " + c) == (a + b) + [','] + (" " + c)
  {
    var l, r := a + (b + ", " + c), (a + b) + [','] + (" " + c);
    assert |l| == |r|;
    forall k | 0 <= k < |l| ensures l[k] == r[k] {
    }
  }

  lemma FormatListCons(lead: string, ms: seq<Member>)
    requires |ms| >= 2
    ensures lead + FormatList(ms) == (lead + Format(ms[0])) + [','] + (" " + FormatList(ms[1..]))
  {
    RegroupSeparator(lead, Format(ms[0]), FormatList(ms[1..]));
  }

  lemma SplitConsStep(head: string, rest: string, lead: string, ms: seq<Member>)
    requires |ms| >= 2
    requires head == lead + Format(ms[0]) && rest == FormatList(ms[1..])
    requires ',' !in head
    ensures Split(lead + FormatList(ms), ',') == [head] + Split(" " + rest, ',')
  {
    FormatListCons(lead, ms);
    SplitFirst(head, ',', " " + rest);
  }

  lemma AllWellFormedTail(ms: seq<Member>)
    requires |ms| >= 1 && AllWellFormed(ms)
    ensures WellFormed(ms[0]) && AllWellFormed(ms[1..])
  {
    assert forall i :: 0 <= i < |ms| - 1 ==> ms[1..][i] == ms[i + 1];
  }

  /** The last member of the list is its own single piece. */
  lemma ParseSingle(lead: string, m: Member)
    requires WellFormed(m) && Blank(lead)
    ensures ParseMemberInput(lead + FormatList([m])) == [m]
  {
    var head := lead + Format(m);
    HeadPiece(lead, m);
    assert lead + FormatList([m]) == head;
    assert Split(head, ',') == [head];
    ParsePiecesCons(head, []);
  }

  /** The first member is split off and parsed; the rest follows after
      the separator's space. */
  lemma ParseConsStep(lead: string, ms: seq<Member>)
    requires |ms| >= 2 && WellFormed(ms[0]) && Blank(lead)
    ensures ParseMemberInput(lead + FormatList(ms)) == [ms[0]] + ParseMemberInput(" " + FormatList(ms[1..]))
  {
    var head := lead + Format(ms[0]);
    HeadPiece(lead, ms[0]);
    var rest := FormatList(ms[1..]);
    SplitConsStep(head, rest, lead, ms);
    ParsePiecesCons(head, Split(" " + rest, ','));
  }

  lemma BlankSpace()
    ensures Blank(" ")
  {
  }

  lemma ParseConsFrom(lead: string, ms: seq<Member>)
    requires |ms| >= 2 && WellFormed(ms[0]) && Blank(lead)
    requires ParseMemberInput(" " + FormatList(ms[1..])) == ms[1..]
    ensures ParseMemberInput(lead + FormatList(ms)) == ms
  {
    ParseConsStep(lead, ms);
    HeadTail(ms);
  }

  lemma HeadTail<T>(xs: seq<T>)
    requires |xs| >= 1
    ensures [xs[0]] + xs[1..] == xs
  {
  }

  lemma {:induction false} ParseFormatListFrom(lead: string, ms: seq<Member>)
    requires |ms| >= 1 && AllWellFormed(ms) && Blank(lead)
    ensures ParseMemberInput(lead + FormatList(ms)) == ms
    decreases |ms|
  {
    AllWellFormedTail(ms);
    if |ms| == 1 {
      assert [ms[0]] == ms;
      ParseSingle(lead, ms[0]);
    } else {
      BlankSpace();
      ParseFormatListFrom(" ", ms[1..]);
      ParseConsFrom(lead, ms);
    }
  }

  /** Round trip: well-formed members written as `Name <email>, ...` parse
      back to exactly those members, in order. */
  lemma ParseFormatList(ms: seq<Member>)
    requires |ms| >= 1 && AllWellFormed(ms)
    ensures ParseMemberInput(FormatList(ms)) == ms
  {
    ParseFormatListFrom("", ms);
    assert "" + FormatList(ms) == FormatList(ms);
  }

  /** A name or e-mail made only of letters, digits, spaces inside, `@`
      and `.` is well formed. */
  predicate PlainChar(c: char) {
    ('a' <= c <= 'z') || ('A' <= c <= 'Z') || ('0' <= c <= '9') || c == '@' || c == '.'
  }

  predicate PlainText(s: string) {
    s != [] && PlainChar(s[0]) && PlainChar(s[|s| - 1])
    && forall k :: 0 <= k < |s| ==> PlainChar(s[k]) || s[k] == ' '
  }

  lemma PlainWellFormed(name: string, email: string)
    requires PlainText(name) && PlainText(email)
    ensures WellFormed(Member(name, email))
  {
  }

  // ---------------------------------------------------------------------
  // The capsule manager's plain e-mail list.

  /** Every piece trimmed. */
  function TrimAll(pieces: seq<string>): (r: seq<string>)
    ensures |r| == |pieces| && forall i :: 0 <= i < |r| ==> r[i] == Trim(pieces[i])
  {
    if pieces == [] then [] else [Trim(pieces[0])] + TrimAll(pieces[1..])
  }

  predicate NonEmpty(t: string) {
    t != ""
  }

  /** Drops the empty strings, keeping the order of the rest: the
      `filter(email => email !== "")` step. */
  function DropEmpty(ts: seq<string>): (r: seq<string>)
    ensures r == Filter(ts, NonEmpty)
    ensures |r| <= |ts|
    ensures forall i :: 0 <= i < |r| ==> r[i] != "" && r[i] in ts
    ensures forall t :: t in ts && t != "" ==> t in r
  {
    if ts == [] then []
    else
      var rest := DropEmpty(ts[1..]);
      HeadTail(ts);
      FilterCons(ts[0], ts[1..], NonEmpty);
      if ts[0] == "" then rest else [ts[0]] + rest
  }

  /** The comma-separated e-mail list: each piece trimmed, blank pieces
      dropped. */
  function SplitEmails(input: string): (r: seq<string>)
    ensures r == Filter(TrimAll(Split(input, ',')), NonEmpty)
    ensures forall i :: 0 <= i < |r| ==> r[i] != "" && IsTrimmed(r[i])
    ensures forall i :: 0 <= i < |Split(input, ',')| && Trim(Split(input, ',')[i]) != "" ==> Trim(Split(input, ',')[i]) in r
    ensures forall e :: e in r ==> e in TrimAll(Split(input, ','))
  {
    var ts := TrimAll(Split(input, ','));
    assert forall t :: t in ts ==> IsTrimmed(t);
    DropEmpty(ts)
  }

  /** The non-empty e-mails of a member list, in order. */
  function EmailsOf(ms: seq<Member>): seq<string> {
    if ms == [] then []
    else if ms[0].email == "" then EmailsOf(ms[1..])
    else [ms[0].email] + EmailsOf(ms[1..])
  }

  lemma {:induction false} NonBlankAgreesWithParse(pieces: seq<string>)
    requires forall i :: 0 <= i < |pieces| ==> '<' !in pieces[i]
    ensures DropEmpty(TrimAll(pieces)) == EmailsOf(ParsePieces(pieces))
  {
    if pieces != [] {
      NoAngleAfterTrim(pieces[0]);
      assert ParsePieces(pieces)[1..] == ParsePieces(pieces[1..]);
      NonBlankAgreesWithParse(pieces[1..]);
    }
  }

  /** Without angle brackets the two parsers agree: the manager's e-mail list
      is exactly the non-empty e-mails the collaborative parser produces, in
      the same order. */
  lemma SplitEmailsAgreesWithParse(input: string)
    requires '<' !in input
    ensures SplitEmails(input) == EmailsOf(ParseMemberInput(input))
  {
    NonBlankAgreesWithParse(Split(input, ','));
  }
}
