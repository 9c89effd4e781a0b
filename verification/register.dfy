/** The registration form: the password-strength meter, the match flag,
    and what the submit handler sends. */
module Registration {
  import opened Wrappers
  import opened Text

  predicate HasLower(pw: string) {
    exists i :: 0 <= i < |pw| && 'a' <= pw[i] <= 'z'
  }

  predicate HasUpper(pw: string) {
    exists i :: 0 <= i < |pw| && 'A' <= pw[i] <= 'Z'
  }

  /** `\d` without the `u` flag: the ASCII digits only. */
  predicate HasDigit(pw: string) {
    exists i :: 0 <= i < |pw| && '0' <= pw[i] <= '9'
  }

  /** The characters of the class `[!@#$%^&*(),.?":{}|<>]`. */
  predicate IsSpecial(c: char) {
    c in "!@#$%^&*(),.?\":{}|<>"
  }

  predicate HasSpecial(pw: string) {
    exists i :: 0 <= i < |pw| && IsSpecial(pw[i])
  }

  predicate LongEnough(pw: string) {
    |pw| >= 8
  }

  function Bit(b: bool): nat {
    if b then 1 else 0
  }

  /** How many of the five tests the password passes. */
  function Score(pw: string): (n: nat)
    ensures n == multiset{HasLower(pw), HasUpper(pw), HasDigit(pw), HasSpecial(pw), LongEnough(pw)}[true]
    ensures n <= 5
    ensures n == 5 <==> HasLower(pw) && HasUpper(pw) && HasDigit(pw) && HasSpecial(pw) && LongEnough(pw)
    ensures n == 0 <==> !HasLower(pw) && !HasUpper(pw) && !HasDigit(pw) && !HasSpecial(pw) && !LongEnough(pw)
  {
    var lower, upper, digit, special, long := HasLower(pw), HasUpper(pw), HasDigit(pw), HasSpecial(pw), LongEnough(pw);
    TrueCount(lower, upper, digit, special, long);
    Bit(lower) + Bit(upper) + Bit(digit) + Bit(special) + Bit(long)
  }

  /** Adding up the bits of five tests counts the tests that hold. */
  lemma TrueCount(a: bool, b: bool, c: bool, d: bool, e: bool)
    ensures Bit(a) + Bit(b) + Bit(c) + Bit(d) + Bit(e) == multiset{a, b, c, d, e}[true]
  {
    assert multiset{a}[true] == Bit(a);
    assert multiset{a, b}[true] == Bit(a) + Bit(b);
    assert multiset{a, b, c}[true] == Bit(a) + Bit(b) + Bit(c);
    assert multiset{a, b, c, d}[true] == Bit(a) + Bit(b) + Bit(c) + Bit(d);
  }

  /** The level shown for a score. */
  function Level(score: nat): (s: string)
    ensures s == "" <==> score == 0
    ensures s == "weak" <==> 1 <= score <= 2
    ensures s == "medium" <==> 3 <= score <= 4
    ensures s == "strong" <==> score >= 5
  {
    if score == 0 then ""
    else if score <= 2 then "weak"
    else if score <= 4 then "medium"
    else "strong"
  }

  /** The levels in increasing order. */
  function LevelRank(s: string): nat {
    if s == "weak" then 1 else if s == "medium" then 2 else if s == "strong" then 3 else 0
  }

  /** A higher score never shows a lower level. */
  lemma LevelMonotone(a: nat, b: nat)
    requires a <= b
    ensures LevelRank(Level(a)) <= LevelRank(Level(b))
  {
  }

  /** The meter's text: nothing for an empty password, otherwise the level. */
  function Strength(pw: string): (s: string)
    ensures pw == "" ==> s == ""
    ensures pw != "" ==> s == Level(Score(pw))
  {
    if pw == "" then "" else Level(Score(pw))
  }

  /** "strong" exactly when all five tests pass; a non-empty password with
      none of them (short and made of other characters) shows nothing. */
  lemma StrongIffAllTests(pw: string)
    ensures Strength(pw) == "strong" <==>
              HasLower(pw) && HasUpper(pw) && HasDigit(pw) && HasSpecial(pw) && LongEnough(pw)
    ensures Strength(" ") == ""
  {
    assert !HasLower(" ") && !HasUpper(" ") && !HasDigit(" ") && !HasSpecial(" ");
  }

  /** Typing one more character never weakens the password. */
  lemma StrengthGrowsWithInput(pw: string, c: char)
    ensures LevelRank(Strength(pw)) <= LevelRank(Strength(pw + [c]))
  {
    if pw != "" {
      ScoreGrows(pw, c);
      LevelMonotone(Score(pw), Score(pw + [c]));
    }
  }

  /** Every test a password passes, the password with one more character
      passes too. */
  lemma ScoreGrows(pw: string, c: char)
    ensures Score(pw) <= Score(pw + [c])
  {
    TestsKept(pw, c);
  }

  lemma TestsKept(pw: string, c: char)
    ensures HasLower(pw) ==> HasLower(pw + [c])
    ensures HasUpper(pw) ==> HasUpper(pw + [c])
    ensures HasDigit(pw) ==> HasDigit(pw + [c])
    ensures HasSpecial(pw) ==> HasSpecial(pw + [c])
  {
    var q := pw + [c];
    if HasLower(pw) {
      var i :| 0 <= i < |pw| && 'a' <= pw[i] <= 'z';
      assert q[i] == pw[i];
    }
    if HasUpper(pw) {
      var i :| 0 <= i < |pw| && 'A' <= pw[i] <= 'Z';
      assert q[i] == pw[i];
    }
    if HasDigit(pw) {
      var i :| 0 <= i < |pw| && '0' <= pw[i] <= '9';
      assert q[i] == pw[i];
    }
    if HasSpecial(pw) {
      var i :| 0 <= i < |pw| && IsSpecial(pw[i]);
      assert q[i] == pw[i];
    }
  }

  /** The match flag: nothing typed in the confirmation counts as matching. */
  function MatchFlag(pw: string, confirm: string): (ok: bool)
    ensures ok <==> confirm == "" || pw == confirm
  {
    confirm == "" || pw == confirm
  }

  /** The submit-time check, run before the guard is raised. */
  function MismatchError(pw: string, confirm: string): (err: Option<string>)
    ensures err.Some? <==> pw != confirm
    ensures err.Some? ==> err.value == "Passwords do not match"
  {
    if pw != confirm then Some("Passwords do not match") else None
  }

  /** A flagged mismatch always blocks the submit; the flag can show a match
      while the submit is still refused, namely when the confirmation is
      left empty. */
  lemma FlagAndSubmitCheck(pw: string, confirm: string)
    ensures !MatchFlag(pw, confirm) ==> MismatchError(pw, confirm).Some?
    ensures MatchFlag(pw, confirm) && MismatchError(pw, confirm).Some? <==> confirm == "" && pw != ""
  {
  }

  datatype RegisterPayload = RegisterPayload(name: string, email: string, password: string, confirmPassword: string)

  /** The request body: the e-mail lower-cased, everything else as typed. */
  function RegisterPayloadOf(name: string, email: string, pw: string, confirm: string): (p: RegisterPayload)
    ensures p.email == ToLower(email) && |p.email| == |email|
    ensures p.name == name && p.password == pw && p.confirmPassword == confirm
  {
    RegisterPayload(name, ToLower(email), pw, confirm)
  }

  /** Sending the lower-cased e-mail again would send the same address. */
  lemma PayloadEmailStable(name: string, email: string, pw: string, confirm: string)
    ensures RegisterPayloadOf(name, RegisterPayloadOf(name, email, pw, confirm).email, pw, confirm)
              == RegisterPayloadOf(name, email, pw, confirm)
  {
    ToLowerIdempotent(email);
  }

  /** The registration error: the server's message, else a fixed text (the
      error's own message is not consulted here). */
  function RegisterFailure(serverMessage: Option<string>): (msg: string)
    ensures msg != ""
    ensures Truthy(serverMessage) ==> msg == serverMessage.value
    ensures !Truthy(serverMessage) ==> msg == "Registration failed"
  {
    OrElse(serverMessage, "Registration failed")
  }
}
