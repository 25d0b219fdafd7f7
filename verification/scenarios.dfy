/** Worked examples of the lifecycle: a rejected submission, an accepted one,
    its approval, a refused second decision, and the filtered listing. */
module Scenarios {
  import opened Wrappers
  import opened Text
  import opened Feedback
  import opened Screener
  import opened Auth
  import opened Submission
  import opened Moderation
  import opened Sorting
  import opened Listing
  import opened Api

  const Alice: Option<string> := Some("alice")
  const Bob: Option<string> := Some("bob")
  const Praise: string := "Great service, thanks!"

  /** The record alice's accepted submission creates at time 1. */
  const Submitted: Item := Item("f1", Praise, Pending, "alice", 1, None, None, None)

  /** The same record after bob approves it at time 2. */
  const ApprovedByBob: Item := Item("f1", Praise, Approved, "alice", 1, Some(2), None, Some("bob"))

  /** A word is absent from a text that lacks one of its characters. */
  lemma MissingCharacter(p: string, s: string, c: char)
    requires c in p && c !in s
    ensures !Occurs(p, s)
  {
    OccursIffSomePosition(p, s);
  }

  lemma PraiseLowered()
    ensures Lower("Great service, thanks!") == "great service, thanks!"
  {
  }

  lemma WordsLowered()
    ensures Lower("badword") == "badword" && Lower("nasty") == "nasty"
  {
  }

  lemma PraiseIsClean()
    ensures ContainsProfanity(Praise) == None
  {
    PraiseLowered();
    WordsLowered();
    assert 'b' !in "great service, thanks!" && 'y' !in "great service, thanks!";
    MissingCharacter("badword", "great service, thanks!", 'b');
    MissingCharacter("nasty", "great service, thanks!", 'y');
    assert !Flags("badword", Praise) && !Flags("nasty", Praise);
  }

  lemma NastyLowered()
    ensures Lower("This is nasty") == "this is nasty"
  {
  }

  lemma NastyFlagged()
    ensures Occurs("nasty", "this is nasty")
  {
    var t := "this is nasty";
    assert t[8..8 + 5] == "nasty";
    assert OccursAt("nasty", t, 8);
    OccursIffSomePosition("nasty", t);
  }

  /** A text with "nasty" but not "badword" is screened as "nasty". */
  lemma OnlyNasty(text: string)
    requires !Flags("badword", text) && Flags("nasty", text)
    ensures ContainsProfanity(text) == Some("nasty")
  {
    assert FirstMatch(ProfaneOrder[1..], text) == Some("nasty");
  }

  lemma BadwordAbsent()
    ensures !Flags("badword", "This is nasty")
  {
    NastyLowered();
    WordsLowered();
    MissingCharacter("badword", "this is nasty", 'b');
  }

  lemma NastyPresent()
    ensures Flags("nasty", "This is nasty")
  {
    NastyLowered();
    WordsLowered();
    NastyFlagged();
  }

  lemma NastyScreened()
    ensures ContainsProfanity("This is nasty") == Some("nasty")
  {
    BadwordAbsent();
    NastyPresent();
    OnlyNasty("This is nasty");
  }

  /** "This is nasty" is refused, naming the word, and nothing is stored. */
  lemma ProfaneSubmissionRefused()
    ensures SubmitFeedback([], Alice, Some(UserRole), "This is nasty", "f1", 1) == Err(ProfanityDetected("nasty"))
  {
    NastyScreened();
  }

  /** Any submission from alice that the screener passes is stored. */
  lemma CleanSubmissionFromAlice(content: string)
    requires ContainsProfanity(content) == None
    ensures var it := Item("f1", content, Pending, "alice", 1, None, None, None);
      SubmitFeedback([], Alice, Some(UserRole), content, "f1", 1) == Ok(Updated([it], it))
  {
    var it := Item("f1", content, Pending, "alice", 1, None, None, None);
    assert GetCurrentUser(Alice, Some(UserRole)) == Ok(User("alice", UserRole));
    assert Submit([], "alice", content, "f1", 1) == Ok(Updated([] + [it], it));
    assert [] + [it] == [it];
  }

  /** alice's clean submission is stored as a pending record. */
  lemma CleanSubmissionStored()
    ensures SubmitFeedback([], Alice, Some(UserRole), Praise, "f1", 1) == Ok(Updated([Submitted], Submitted))
  {
    PraiseIsClean();
    CleanSubmissionFromAlice(Praise);
  }

  /** bob approves it: status, approval time and moderator set, rejection
      time empty, and a notification for the record. */
  lemma ModeratorApproves()
    ensures UpdateFeedbackStatus([Submitted], Bob, Some(ModeratorRole), "f1", "approved", 2)
         == Ok(Moderated([ApprovedByBob], ApprovedByBob, Notice("f1", Approved, "alice", Some("bob"))))
  {
    assert Moderator(Bob, Some(ModeratorRole)) == Ok(User("bob", ModeratorRole));
    assert IndexOf([Submitted], "f1") == Some(0);
    assert ParseTarget("approved") == Some(Approved);
    assert [Submitted][0 := ApprovedByBob] == [ApprovedByBob];
  }

  /** A second decision on the approved record is refused, naming its status. */
  lemma SecondDecisionRefused()
    ensures UpdateFeedbackStatus([ApprovedByBob], Bob, Some(ModeratorRole), "f1", "rejected", 3)
         == Err(AlreadyFinalized(Approved))
  {
  }

  /** A moderator listing a one-record store by status name, with the default
      window, sees the record exactly when its status has that name. */
  lemma ListingOneRecord(it: Item, name: string)
    requires name != ""
    ensures ListFeedbacks([it], Bob, Some(ModeratorRole), Some(name), None, DefaultSkip, DefaultLimit)
         == Ok(if it.status.Name() == name then [it] else [])
  {
    assert Moderator(Bob, Some(ModeratorRole)).Ok?;
    var sel := Selected([it], Some(name), None);
    assert sel == if it.status.Name() == name then [it] else [];
    assert SortDesc([it]) == [it];
    assert List([it], Some(name), None, DefaultSkip, DefaultLimit) == sel;
  }

  /** With `skip` and `limit` left out, filtering by "approved" shows the
      approved record; by "pending", nothing. */
  lemma ListingByStatus()
    ensures ListFeedbacks([ApprovedByBob], Bob, Some(ModeratorRole), Some("approved"), None, DefaultSkip, DefaultLimit)
         == Ok([ApprovedByBob])
    ensures ListFeedbacks([ApprovedByBob], Bob, Some(ModeratorRole), Some("pending"), None, DefaultSkip, DefaultLimit)
         == Ok([])
  {
    ListingOneRecord(ApprovedByBob, "approved");
    ListingOneRecord(ApprovedByBob, "pending");
  }
}
