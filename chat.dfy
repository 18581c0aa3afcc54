/**
 * One turn of the interactive practice bot: read a line, stop on exit or
 * quit, skip blank lines, otherwise record the user's line, pick the reply
 * (the canned safe redirect when the safety gate trips, the language model
 * otherwise) and record it.
 */
module Chat {
  import opened Text
  import opened SafetyTemplates

  datatype Role = System | User | Assistant

  /** One history entry: `{"role": ..., "content": ...}`. */
  datatype Message = Message(role: Role, content: string)

  /** The two selectable personas. */
  datatype PersonaChoice = Friendly | FlirtyAdultOk

  /** `PERSONA_SYSTEM`: the system prompt of each persona. */
  const FriendlyPrompt: string :=
    "You are a natural conversational partner on a dating app. Keep replies short (1\U{2013}3 sentences). Ask exactly one thoughtful question. Be warm, curious, and specific."
  const FlirtyAdultOkPrompt: string :=
    "You are playful and lightly flirty on a dating app. Adult topics are allowed if mutual and respectful. Never be coercive, never push for address/location, and always respect boundaries. Keep replies short (1\U{2013}2 sentences). Ask exactly one engaging question."

  function SystemPrompt(p: PersonaChoice): string
  {
    match p
    case Friendly => FriendlyPrompt
    case FlirtyAdultOk => FlirtyAdultOkPrompt
  }

  datatype Mode = Normal | SafetyRepair

  /** What a turn did: end the session, skip a blank line, or answer. */
  datatype TurnOutcome = Quit | Skipped | Replied(reply: string, mode: Mode)

  /** The line, once stripped, is "exit" or "quit" in any letter case. */
  predicate IsExitCommand(user: string)
  {
    Lower(user) == "exit" || Lower(user) == "quit"
  }

  /** What one input line asks for, once stripped: to end the session, to
      be skipped, or to be answered. */
  datatype LineKind = ExitLine | BlankLine | UserLine(text: string)

  /** The two checks at the top of the loop, in their order: exit or quit
      first, then the blank line; any other line is answered with its
      stripped text. */
  function ReadLine(line: string): LineKind
  {
    var user := Strip(line);
    if IsExitCommand(user) then ExitLine
    else if user == [] then BlankLine
    else UserLine(user)
  }

  /** The gate: the rule matcher fired or the classifier said "MOVE". */
  predicate GateTrips(gateLabel: string, ruleHit: bool)
  {
    ruleHit || gateLabel == "MOVE"
  }

  /** A history the bot keeps: the system entry first, then user and
      assistant entries in alternation, ending on an assistant entry. */
  ghost predicate WellFormed(history: seq<Message>, system: Message)
  {
    && |history| % 2 == 1
    && history[0] == system
    && forall i :: 1 <= i < |history| ==> history[i].role == if i % 2 == 1 then User else Assistant
  }

  /** Appending one exchange keeps a history well formed and leaves every
      earlier entry, the system entry among them, as it was. */
  lemma {:induction false} ExchangeKeepsWellFormed(history: seq<Message>, system: Message, user: string, reply: string)
    requires WellFormed(history, system)
    ensures var h := history + [Message(User, user), Message(Assistant, reply)];
      && WellFormed(h, system)
      && h[..|history|] == history
      && |h| == |history| + 2
  {
    var h := history + [Message(User, user), Message(Assistant, reply)];
    forall i | 1 <= i < |h| ensures h[i].role == if i % 2 == 1 then User else Assistant {
      if i >= |history| {
        assert (i == |history|) == (i % 2 == 1);
      }
    }
  }

  /** The reply and mode for a processed line: the template picker's reply
      in safety-repair mode when the gate tripped, the language model's
      reply to `history` in normal mode otherwise. */
  method Respond(gateTripped: bool, history: seq<Message>, llm: seq<Message> -> string,
                 redirect: nat, draw: real, softener: nat)
    returns (reply: string, mode: Mode)
    requires redirect < |SafeRedirects| && softener < |Softeners|
    ensures gateTripped ==> mode == SafetyRepair && reply == BoundarySafeReply(redirect, draw, softener)
    ensures !gateTripped ==> mode == Normal && reply == llm(history)
  {
    if gateTripped {
      reply := BoundarySafeReply(redirect, draw, softener);
      mode := SafetyRepair;
    } else {
      reply := llm(history);
      mode := Normal;
    }
  }

  /** The chat session: the chosen persona, its system entry, and the
      conversation history handed to the language model. */
  class ChatSession {
    const persona: PersonaChoice
    const system: Message
    var history: seq<Message>

    ghost predicate Valid()
      reads this
    {
      WellFormed(history, system)
    }

    /** The history starts as the persona's single system entry. */
    constructor(persona: PersonaChoice)
      ensures Valid()
      ensures this.persona == persona && system == Message(System, SystemPrompt(persona))
      ensures history == [system]
    {
      this.persona := persona;
      system := Message(System, SystemPrompt(persona));
      history := [Message(System, SystemPrompt(persona))];
    }

    /** The body of the loop for a line that is answered: consult the
        classifier and the rule matcher on the stripped text, append it as a
        user entry, pick the reply (the template picker's when the gate trips,
        the language model's, shown the history with the new user entry,
        otherwise) and append it as an assistant entry. */
    method Exchange(user: string, classify: string -> string, obviousEscalation: string -> bool,
                    llm: seq<Message> -> string, redirect: nat, draw: real, softener: nat)
      returns (reply: string, mode: Mode)
      requires Valid()
      requires redirect < |SafeRedirects| && softener < |Softeners|
      modifies this
      ensures Valid()
      ensures history == old(history) + [Message(User, user), Message(Assistant, reply)]
      ensures GateTrips(classify(user), obviousEscalation(user)) ==>
        mode == SafetyRepair && reply == BoundarySafeReply(redirect, draw, softener)
      ensures !GateTrips(classify(user), obviousEscalation(user)) ==>
        mode == Normal && reply == llm(old(history) + [Message(User, user)])
    {
      var gateLabel := classify(user);
      var ruleHit := obviousEscalation(user);
      history := history + [Message(User, user)];
      reply, mode := Respond(GateTrips(gateLabel, ruleHit), history, llm, redirect, draw, softener);
      ExchangeKeepsWellFormed(old(history), system, user, reply);
      history := history + [Message(Assistant, reply)];
      assert history == old(history) + [Message(User, user), Message(Assistant, reply)];
    }

    /** One pass of the `while True` loop on the input `line`. The safety
        classifier, the rule matcher and the language model are given as
        functions; `redirect`, `draw` and `softener` are the template
        picker's random draws. An exit command ends the session and a blank
        line is skipped, both leaving the history alone; any other line is
        answered, appending exactly two entries. */
    method Turn(line: string, classify: string -> string, obviousEscalation: string -> bool,
                llm: seq<Message> -> string, redirect: nat, draw: real, softener: nat)
      returns (outcome: TurnOutcome)
      requires Valid()
      requires redirect < |SafeRedirects| && softener < |Softeners|
      modifies this
      ensures Valid()
      ensures |old(history)| <= |history| && history[..|old(history)|] == old(history)
      ensures match ReadLine(line)
        case ExitLine => outcome == Quit && history == old(history)
        case BlankLine => outcome == Skipped && history == old(history)
        case UserLine(user) =>
          && outcome.Replied?
          && history == old(history) + [Message(User, user), Message(Assistant, outcome.reply)]
          && (GateTrips(classify(user), obviousEscalation(user)) ==>
                outcome.mode == SafetyRepair && outcome.reply == BoundarySafeReply(redirect, draw, softener))
          && (!GateTrips(classify(user), obviousEscalation(user)) ==>
                outcome.mode == Normal && outcome.reply == llm(old(history) + [Message(User, user)]))
    {
      var kind := ReadLine(line);
      if kind.ExitLine? {
        return Quit;
      }
      if kind.BlankLine? {
        return Skipped;
      }
      var reply, mode := Exchange(kind.text, classify, obviousEscalation, llm, redirect, draw, softener);
      outcome := Replied(reply, mode);
    }
  }

  /** Which of the three ways a line goes does not depend on its letter
      case: "EXIT", "Exit" and "exit" all end the session, and case never
      turns a blank line into an answered one or back. */
  lemma ReadLineIgnoresCase(a: string, b: string)
    requires Lower(a) == Lower(b)
    ensures ReadLine(a).ExitLine? <==> ReadLine(b).ExitLine?
    ensures ReadLine(a).BlankLine? <==> ReadLine(b).BlankLine?
    ensures ReadLine(a).UserLine? <==> ReadLine(b).UserLine?
  {
    var sa, sb := Strip(a), Strip(b);
    StripLowerCommute(a);
    StripLowerCommute(b);
    assert Lower(sa) == Lower(sb);
    assert sa == [] <==> sb == [] by {
      assert |Lower(sa)| == |sa| && |Lower(sb)| == |sb|;
    }
    assert IsExitCommand(sa) <==> IsExitCommand(sb);
  }
}
