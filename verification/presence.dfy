/**
  The presence document returned by the presence endpoint, the defaulting of
  its two fields, and the classification of an activity as "in a call".
*/
module Presence {
  import opened Ascii

  /** The decoded JSON object of a presence response, restricted to its string-valued fields. */
  type PresenceDoc = map<string, string>

  /** The neutral value a missing field defaults to. */
  const Unknown: string := "PresenceUnknown"

  /** The lower-cased activities that switch the light on, as listed in the loop. */
  const ActiveActivities: seq<string> := ["inacall", "inaudiocall", "inmeeting", "presenting"]

  /** `presence.get(key, "PresenceUnknown")`. */
  function Field(doc: PresenceDoc, key: string): (v: string)
    ensures key in doc ==> v == doc[key]
    ensures key !in doc ==> v == Unknown
  {
    if key in doc then doc[key] else Unknown
  }

  function Activity(doc: PresenceDoc): string {
    Field(doc, "activity")
  }

  /** Whether the light should be on for this activity. */
  predicate InCall(activity: string) {
    Lower(activity) in ActiveActivities
  }

  /**
    The classification, characterised without lower-casing: an activity is
    "in a call" exactly when it spells one of the four listed words in any
    mixture of cases.
  */
  lemma InCallIffMatchesListedWord(activity: string)
    ensures InCall(activity) <==>
      exists w :: w in ActiveActivities && MatchesIgnoringCase(activity, w)
  {
    forall w | w in ActiveActivities
      ensures Lower(activity) == w <==> MatchesIgnoringCase(activity, w)
    {
      assert AllLowerLetters(w);
      LowerEqualsIffMatches(activity, w);
    }
  }

  /** The default activity is not one of the listed words, so it classifies as off. */
  lemma UnknownIsOff()
    ensures !InCall(Unknown)
  {
  }

  /** A document without `activity` always classifies as off. */
  lemma MissingActivityIsOff(doc: PresenceDoc)
    requires "activity" !in doc
    ensures !InCall(Activity(doc))
  {
  }

  /** A call, presenting and the listed spelling of a meeting classify as on, in any case. */
  lemma ListedSpellingsAreOn()
    ensures InCall("InACall")
    ensures InCall("Presenting")
    ensures InCall("InMeeting")
  {
    InCallIffMatchesListedWord("InACall");
    assert MatchesIgnoringCase("InACall", "inacall");
    InCallIffMatchesListedWord("Presenting");
    assert MatchesIgnoringCase("Presenting", "presenting");
    InCallIffMatchesListedWord("InMeeting");
    assert MatchesIgnoringCase("InMeeting", "inmeeting");
  }

  /** `InAMeeting` lower-cases to `inameeting`, which is not listed; `Available` is not listed either. */
  lemma UnlistedSpellingsAreOff()
    ensures !InCall("InAMeeting")
    ensures !InCall("Available")
  {
    var m := Lower("InAMeeting");
    assert |m| == 10 && m[2] == 'a';
    assert m != "inacall" && m != "inaudiocall" && m != "inmeeting" && m != "presenting";
    var v := Lower("Available");
    assert |v| == 9 && v[0] == 'a';
    assert v != "inacall" && v != "inaudiocall" && v != "inmeeting" && v != "presenting";
  }

  /**
    The activities the presence service reports for a call and for
    presenting classify as on; the service's spelling of a meeting,
    `InAMeeting`, lower-cases to `inameeting`, which is not listed, so
    it classifies as off.
  */
  lemma ServiceSpellings()
    ensures InCall("InACall")
    ensures InCall("Presenting")
    ensures InCall("InMeeting")
    ensures !InCall("InAMeeting")
    ensures !InCall("Available")
  {
    ListedSpellingsAreOn();
    UnlistedSpellingsAreOff();
  }
}
