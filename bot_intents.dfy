/**
 * The keyword intents both rule-based chat bots test for
 * (SentimentChatbot/bots/echo_bot.py and ChatBot/bots/echo_bot.py). Each
 * bot strips the incoming activity text (`None` read as `""`), lowers it,
 * and asks whether one of a few keywords occurs in it as a substring.
 */
module BotIntents {
  import opened Wrappers
  import opened PyStr

  /** `(activity.text or "").strip()`. */
  function Received(text: Option<string>): (t: string)
    ensures Stripped(t)
    ensures text.None? ==> t == []
    ensures text.Some? ==> (t == [] <==> AllSpace(text.value))
  {
    Strip(if text.Some? then text.value else "")
  }

  /** `any(w in low for w in words)`. */
  predicate MentionsAny(low: string, words: seq<string>)
  {
    exists i :: 0 <= i < |words| && Contains(low, words[i])
  }

  const GreetingWords: seq<string> := ["hi", "hello", "hey", "good morning", "good afternoon", "good evening"]
  const HelpWords: seq<string> := ["help", "capabilities", "what can you do", "commands"]
  const FarewellWords: seq<string> := ["bye", "goodbye", "see you"]

  predicate Greets(low: string)
  {
    MentionsAny(low, GreetingWords)
  }

  predicate AsksHelp(low: string)
  {
    MentionsAny(low, HelpWords)
  }

  predicate AsksTime(low: string)
  {
    Contains(low, "time")
  }

  predicate AsksDate(low: string)
  {
    Contains(low, "date")
  }

  predicate SaysBye(low: string)
  {
    MentionsAny(low, FarewellWords)
  }

  /** A non-empty keyword never occurs in the empty text. */
  lemma NothingInEmpty(q: string)
    requires q != []
    ensures !Contains([], q)
  {
  }

  /** No intent matches the empty text, so an empty message reaches the bots' empty-text branch. */
  lemma EmptyMentionsNothing()
    ensures !Greets([]) && !AsksHelp([]) && !AsksTime([]) && !AsksDate([]) && !SaysBye([])
  {
    forall i | 0 <= i < |GreetingWords|
      ensures !Contains([], GreetingWords[i])
    {
      NothingInEmpty(GreetingWords[i]);
    }
    forall i | 0 <= i < |HelpWords|
      ensures !Contains([], HelpWords[i])
    {
      NothingInEmpty(HelpWords[i]);
    }
    forall i | 0 <= i < |FarewellWords|
      ensures !Contains([], FarewellWords[i])
    {
      NothingInEmpty(FarewellWords[i]);
    }
    NothingInEmpty("time");
    NothingInEmpty("date");
  }

  /**
   * Substring matching fires inside longer words: any text holding "this"
   * counts as a greeting, because "hi" occurs in it.
   */
  lemma GreetingInsideWord(low: string, i: nat)
    requires OccursAt(low, "this", i)
    ensures Greets(low)
  {
    assert low[i + 1] == 'h' && low[i + 2] == 'i' by {
      assert low[i..i + 4][1] == low[i + 1] && low[i..i + 4][2] == low[i + 2];
    }
    assert low[i + 1..i + 3] == "hi";
    assert OccursAt(low, "hi", i + 1);
    OccurrenceContained(low, "hi", i + 1);
    assert Contains(low, GreetingWords[0]);
  }
}
