/**
 * The canned reply used when the safety gate trips: one of four redirects,
 * sometimes followed by one of three softeners. The random draws are
 * parameters: which redirect, the uniform draw in [0, 1) that decides
 * whether to soften, and which softener.
 */
module SafetyTemplates {

  const SafeRedirects: seq<string> := [
    "Totally fair\U{2014}let\U{2019}s keep it comfortable. I\U{2019}m happy to stay here and chat. What are you up to this week?",
    "Got it. I don\U{2019}t want to push. Want to switch topics\U{2014}what have you been enjoying lately?",
    "No worries at all. We can keep this low-key. What kind of plans do you have for the weekend?",
    "Thanks for saying that. I\U{2019}ll slow down. What\U{2019}s something you\U{2019}re looking forward to right now?"
  ]

  const Softeners: seq<string> := [
    "No pressure.",
    "Only if you feel comfortable.",
    "Totally fine either way."
  ]

  /** A softener is appended when the draw falls below this. */
  const SoftenBelow: real := 0.35

  /** Every reply the picker can give: a bare redirect, or a redirect, a
      space and a softener. */
  function Catalogue(): set<string>
  {
    (set i | 0 <= i < |SafeRedirects| :: SafeRedirects[i])
    + (set i, j | 0 <= i < |SafeRedirects| && 0 <= j < |Softeners| :: SafeRedirects[i] + " " + Softeners[j])
  }

  /** `boundary_safe_reply`: the chosen redirect, followed by a space and
      the chosen softener when the draw is below 0.35. */
  function BoundarySafeReply(redirect: nat, draw: real, softener: nat): string
    requires redirect < |SafeRedirects| && softener < |Softeners|
  {
    var base := SafeRedirects[redirect];
    if draw < SoftenBelow then base + " " + Softeners[softener] else base
  }

  /** The reply always starts with the chosen redirect, and it is the bare
      redirect exactly when the draw is not below 0.35. */
  lemma ReplyStartsWithRedirect(redirect: nat, draw: real, softener: nat)
    requires redirect < |SafeRedirects| && softener < |Softeners|
    ensures var reply := BoundarySafeReply(redirect, draw, softener);
      && |SafeRedirects[redirect]| <= |reply|
      && reply[..|SafeRedirects[redirect]|] == SafeRedirects[redirect]
      && (reply == SafeRedirects[redirect] <==> !(draw < SoftenBelow))
  {
    var base := SafeRedirects[redirect];
    var reply := BoundarySafeReply(redirect, draw, softener);
    if draw < SoftenBelow {
      assert reply == base + (" " + Softeners[softener]);
      assert |reply| > |base|;
    }
    assert reply[..|base|] == base;
  }

  /** The reply is always one of the catalogued strings: at most one
      softener is ever appended. */
  lemma ReplyInCatalogue(redirect: nat, draw: real, softener: nat)
    requires redirect < |SafeRedirects| && softener < |Softeners|
    ensures BoundarySafeReply(redirect, draw, softener) in Catalogue()
  {
    if draw < SoftenBelow {
      assert BoundarySafeReply(redirect, draw, softener) == SafeRedirects[redirect] + " " + Softeners[softener];
    }
  }

  /** No redirect starts with another: each one's last-but-one character
      differs from the character at that position in every longer one. */
  lemma RedirectsPrefixFree(i: nat, j: nat)
    requires i < |SafeRedirects| && j < |SafeRedirects| && i != j
    requires |SafeRedirects[i]| <= |SafeRedirects[j]|
    ensures SafeRedirects[j][..|SafeRedirects[i]|] != SafeRedirects[i]
  {
    var k := |SafeRedirects[i]| - 2;
    assert |SafeRedirects[0]| == 102 && |SafeRedirects[1]| == 87;
    assert |SafeRedirects[2]| == 92 && |SafeRedirects[3]| == 93;
    if i == 1 {
      assert SafeRedirects[1][85] == 'y';
      assert SafeRedirects[0][85] == ' ' && SafeRedirects[2][85] == 'e' && SafeRedirects[3][85] == 'g';
    } else if i == 2 {
      assert SafeRedirects[2][90] == 'd';
      assert SafeRedirects[0][90] == 'o' && SafeRedirects[3][90] == 'o';
    } else {
      assert i == 3 && j == 0;
      assert SafeRedirects[3][91] == 'w' && SafeRedirects[0][91] == ' ';
    }
    assert SafeRedirects[j][..|SafeRedirects[i]|][k] != SafeRedirects[i][k];
  }

  /** The reply determines the draws that matter: which redirect, whether a
      softener was added and, if so, which one. So the picker has exactly
      4 + 4 * 3 distinct outcomes, each with at most one softener. */
  lemma ReplyDeterminesDraws(r1: nat, d1: real, s1: nat, r2: nat, d2: real, s2: nat)
    requires r1 < |SafeRedirects| && s1 < |Softeners|
    requires r2 < |SafeRedirects| && s2 < |Softeners|
    requires BoundarySafeReply(r1, d1, s1) == BoundarySafeReply(r2, d2, s2)
    ensures r1 == r2
    ensures d1 < SoftenBelow <==> d2 < SoftenBelow
    ensures d1 < SoftenBelow ==> s1 == s2
  {
    var reply := BoundarySafeReply(r1, d1, s1);
    ReplyStartsWithRedirect(r1, d1, s1);
    ReplyStartsWithRedirect(r2, d2, s2);
    var a, b := SafeRedirects[r1], SafeRedirects[r2];
    if r1 != r2 {
      if |a| <= |b| {
        assert b[..|a|] == reply[..|b|][..|a|] == reply[..|a|];
        RedirectsPrefixFree(r1, r2);
      } else {
        assert a[..|b|] == reply[..|a|][..|b|] == reply[..|b|];
        RedirectsPrefixFree(r2, r1);
      }
    }
    assert |Softeners[0]| == 12 && |Softeners[1]| == 29 && |Softeners[2]| == 24;
  }
}
