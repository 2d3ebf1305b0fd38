/** The offline companion reply: the message is sorted into the first
    keyword bucket it matches, and a reply is picked from that bucket's set.
    The random pick is the parameter `pick`, reduced modulo the bucket size. */
module LocalReplies {
  import opened Wrappers
  import opened PyText

  datatype Mood = Sad | Angry | Scared | Happy | Other

  const SadKeywords: seq<string> := ["sad", "upset", "unhappy", "depressed"]
  const AngryKeywords: seq<string> := ["angry", "mad", "annoyed"]
  const ScaredKeywords: seq<string> := ["scared", "afraid", "nervous", "anxious"]
  const HappyKeywords: seq<string> := ["happy", "great", "good"]

  // The replies are written in pieces of at most forty characters, short
  // enough for the verifier to read their characters off.
  const SadReplies: seq<string> := [
    "I'm sorry you're feeling sad. " + "Would you like a breathing exercise?",
    "That sounds hard. " + "Try taking a slow breath in and out."
  ]
  const AngryReplies: seq<string> := [
    "It's okay to feel angry. " + "Try counting to ten slowly.",
    "I hear your frustration " + "— a short walk might help."
  ]
  const ScaredReplies: seq<string> := [
    "I'm here with you. " + "Try placing your hand over your heart " + "and breathe.",
    "You're safe here. " + "Take a deep breath with me."
  ]
  const HappyReplies: seq<string> := [
    "That's wonderful " + "— enjoy the feeling!",
    "So glad to hear that " + "— keep smiling!"
  ]
  const OtherReplies: seq<string> := [
    "I hear you. " + "Would you like a short breathing exercise?",
    "Thanks for sharing " + "— try taking three slow breaths.",
    "I'm here for you. " + "Want a calming activity suggestion?"
  ]

  /** The bucket a message falls into: the first, in the order sad, angry,
      scared, happy, whose keywords occur in the lower-cased message. */
  function Classify(message: string): (m: Mood)
    ensures m == Sad <==> ContainsAny(Lower(message), SadKeywords)
    ensures m == Angry <==> !ContainsAny(Lower(message), SadKeywords) &&
                            ContainsAny(Lower(message), AngryKeywords)
    ensures m == Scared <==> !ContainsAny(Lower(message), SadKeywords) &&
                             !ContainsAny(Lower(message), AngryKeywords) &&
                             ContainsAny(Lower(message), ScaredKeywords)
    ensures m == Happy <==> !ContainsAny(Lower(message), SadKeywords) &&
                            !ContainsAny(Lower(message), AngryKeywords) &&
                            !ContainsAny(Lower(message), ScaredKeywords) &&
                            ContainsAny(Lower(message), HappyKeywords)
    ensures m == Other <==> !ContainsAny(Lower(message), SadKeywords) &&
                            !ContainsAny(Lower(message), AngryKeywords) &&
                            !ContainsAny(Lower(message), ScaredKeywords) &&
                            !ContainsAny(Lower(message), HappyKeywords)
  {
    var lower := Lower(message);
    if ContainsAny(lower, SadKeywords) then Sad
    else if ContainsAny(lower, AngryKeywords) then Angry
    else if ContainsAny(lower, ScaredKeywords) then Scared
    else if ContainsAny(lower, HappyKeywords) then Happy
    else Other
  }

  /** The fixed set of replies of a bucket. */
  function RepliesFor(mood: Mood): (rs: seq<string>)
    ensures |rs| >= 2
  {
    match mood
    case Sad => SadReplies
    case Angry => AngryReplies
    case Scared => ScaredReplies
    case Happy => HappyReplies
    case Other => OtherReplies
  }

  /** The offline reply to `message`; `pick` stands for the random choice. */
  function GenerateLocalReply(message: string, pick: nat): (r: string)
    ensures r in RepliesFor(Classify(message))
    ensures r != [] && r[0] !in Whitespace
  {
    RepliesNotBlank(Classify(message));
    var replies := RepliesFor(Classify(message));
    replies[pick % |replies|]
  }

  /** Every reply starts with a visible character. */
  lemma RepliesNotBlank(mood: Mood)
    ensures forall r :: r in RepliesFor(mood) ==> r != [] && r[0] !in Whitespace
  {
    var rs := RepliesFor(mood);
    forall r | r in rs
      ensures r != [] && r[0] !in Whitespace
    {
      assert r[0] in {'I', 'T', 'Y', 'S'};
    }
  }

  /** Every reply of a bucket can be produced. */
  lemma EveryReplyReachable(message: string, r: string)
    requires r in RepliesFor(Classify(message))
    ensures exists pick: nat :: GenerateLocalReply(message, pick) == r
  {
    var replies := RepliesFor(Classify(message));
    var i :| 0 <= i < |replies| && replies[i] == r;
    PickBelowSize(i, |replies|);
    assert GenerateLocalReply(message, i) == replies[i % |replies|];
  }

  /** A pick below the bucket size selects that very reply. */
  lemma PickBelowSize(i: nat, n: nat)
    requires i < n
    ensures i % n == i
  {
  }

  /** The bucket a reply string belongs to, if any. */
  function MoodOfReply(r: string): Option<Mood>
  {
    if r in SadReplies then Some(Sad)
    else if r in AngryReplies then Some(Angry)
    else if r in ScaredReplies then Some(Scared)
    else if r in HappyReplies then Some(Happy)
    else if r in OtherReplies then Some(Other)
    else None
  }

  /** No reply string is shared by two buckets, so every reply tells which
      bucket the message fell into. */
  lemma {:induction false} ReplyRevealsMood(message: string, pick: nat)
    ensures MoodOfReply(GenerateLocalReply(message, pick)) == Some(Classify(message))
  {
    var r := GenerateLocalReply(message, pick);
    RepliesDisjoint(r);
  }

  /** A reply string lies in exactly one bucket. */
  lemma RepliesDisjoint(r: string)
    ensures r in SadReplies ==> r !in AngryReplies && r !in ScaredReplies &&
                                r !in HappyReplies && r !in OtherReplies
    ensures r in AngryReplies ==> r !in ScaredReplies && r !in HappyReplies && r !in OtherReplies
    ensures r in ScaredReplies ==> r !in HappyReplies && r !in OtherReplies
    ensures r in HappyReplies ==> r !in OtherReplies
  {
    // All replies differ in length but two, which differ in their first letter.
    assert |SadReplies[0]| == 66 && |SadReplies[1]| == 54;
    assert |AngryReplies[0]| == 52 && |AngryReplies[1]| == 50;
    assert |ScaredReplies[0]| == 69 && |ScaredReplies[1]| == 45;
    assert |HappyReplies[0]| == 37 && |HappyReplies[1]| == 36;
    assert |OtherReplies[0]| == 54 && |OtherReplies[1]| == 51 && |OtherReplies[2]| == 53;
    assert SadReplies[1][0] == 'T' && OtherReplies[0][0] == 'I';
  }

  /** A message with a sad keyword gets a sad reply, never a happy one,
      whatever else it contains. */
  lemma SadNeverHappy(message: string, pick: nat)
    requires ContainsAny(Lower(message), SadKeywords)
    ensures GenerateLocalReply(message, pick) in SadReplies
    ensures GenerateLocalReply(message, pick) !in HappyReplies
  {
    RepliesDisjoint(GenerateLocalReply(message, pick));
  }
}
