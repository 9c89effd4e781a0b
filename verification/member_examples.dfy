/** Worked examples of the member parser. */
module MemberExamples {
  import opened Members
  import opened ExampleInputs

  /** Two members written `Name <email>, Name <email>` parse to both. */
  lemma TwoNamedMembers(n1: string, e1: string, n2: string, e2: string)
    requires PlainText(n1) && PlainText(e1) && PlainText(n2) && PlainText(e2)
    ensures ParseMemberInput((n1 + " <" + e1 + ">, ") + (n2 + " <" + e2 + ">")) == [Member(n1, e1), Member(n2, e2)]
  {
    var ms := [Member(n1, e1), Member(n2, e2)];
    PlainWellFormed(n1, e1);
    PlainWellFormed(n2, e2);
    assert FormatList(ms[1..]) == Format(ms[1]);
    assert FormatList(ms) == (n1 + " <" + e1 + ">, ") + (n2 + " <" + e2 + ">");
    ParseFormatList(ms);
  }

  /** The example from the form's comment parses to two named members. */
  lemma CommentExample(input: string)
    requires input == "John Doe <john@example.com>, Jane Doe <jane@example.com>"
    ensures ParseMemberInput(input) == [Member("John Doe", "john@example.com"), Member("Jane Doe", "jane@example.com")]
  {
    ExampleText();
    TwoNamedMembers("John Doe", "john@example.com", "Jane Doe", "jane@example.com");
  }
}

/** The literal input of the example, assembled from its parts. Kept apart
    from the parser so that the string facts are proved without the
    parser's definitions in view. */
module ExampleInputs {
  /** The comment's example is two formatted members joined by ", ". */
  lemma ExampleText()
    ensures ("John Doe" + " <" + "john@example.com" + ">, ") + ("Jane Doe" + " <" + "jane@example.com" + ">")
            == "John Doe <john@example.com>, Jane Doe <jane@example.com>"
  {
    FirstHalf();
    SecondHalf();
    Whole();
  }

  lemma FirstHalf()
    ensures "John Doe" + " <" + "john@example.com" + ">, " == "John Doe <john@example.com>, "
  {
  }

  lemma SecondHalf()
    ensures "Jane Doe" + " <" + "jane@example.com" + ">" == "Jane Doe <jane@example.com>"
  {
  }

  lemma Whole()
    ensures "John Doe <john@example.com>, " + "Jane Doe <jane@example.com>"
            == "John Doe <john@example.com>, Jane Doe <jane@example.com>"
  {
  }
}
