/** Concrete runs of the polling loop. */
module Scenarios {
  import opened Optional
  import opened Presence
  import opened PollLoop

  function Doc(availability: string, activity: string): PresenceDoc {
    map["availability" := availability, "activity" := activity]
  }

  /** The light state a document asks for depends on its activity alone. */
  lemma LightOnOfDoc(availability: string, activity: string)
    ensures LightOn(Doc(availability, activity)) == InCall(activity)
  {
    assert "availability" != "activity";
  }

  /** A poll at `clock` reading `presence`; a renewal in it reads the same clock again. */
  function Poll(clock: int, presence: Option<PresenceDoc>): Tick {
    Tick(clock, clock, "renewed", presence)
  }

  /** Polls classifying as off, off, on, on, off, with a failed read between the two on polls. */
  function DebounceTicks(): seq<Tick> {
    [Poll(5, Some(Doc("Available", "Available"))),
     Poll(10, Some(Doc("Available", "Available"))),
     Poll(15, Some(Doc("Busy", "InACall"))),
     Poll(20, None),
     Poll(25, Some(Doc("Busy", "Presenting"))),
     Poll(30, Some(Doc("Available", "Available")))]
  }

  lemma DebounceTicksClassified()
    ensures Classified(DebounceTicks()) == [false, false, true, true, false]
  {
    var ticks := DebounceTicks();
    LightOnOfDoc("Available", "Available");
    LightOnOfDoc("Busy", "InACall");
    LightOnOfDoc("Busy", "Presenting");
    ServiceSpellings();
    assert Classified(ticks[6..]) == [];
    assert Classified(ticks[5..]) == [false];
    assert Classified(ticks[4..]) == [true, false];
    assert Classified(ticks[3..]) == [true, false];
    assert Classified(ticks[2..]) == [true, true, false];
    assert Classified(ticks[1..]) == [false, true, true, false];
  }

  lemma DebounceTransitions()
    ensures Transitions(None, [false, false, true, true, false]) == [false, true, false]
  {
    var xs := [false, false, true, true, false];
    assert Transitions(Some(false), xs[5..]) == [];
    assert Transitions(Some(true), xs[4..]) == [false];
    assert Transitions(Some(true), xs[3..]) == [false];
    assert Transitions(Some(false), xs[2..]) == [true, false];
    assert Transitions(Some(false), xs[1..]) == [true, false];
  }

  /**
    Classifications off, off, on, on, off, with a failed read in the
    middle: exactly three commands, off, on, off.
  */
  lemma DebounceExample()
    ensures Run(Init(0, "first"), DebounceTicks()).commands == [false, true, false]
  {
    DebounceTicksClassified();
    DebounceTransitions();
    RunIsTransitions(Init(0, "first"), DebounceTicks());
  }

  /** A meeting as the presence service spells it, then an available presence twice. */
  function MeetingTicks(): seq<Tick> {
    [Poll(5, Some(Doc("Busy", "InAMeeting"))),
     Poll(10, Some(Doc("Available", "Available"))),
     Poll(15, Some(Doc("Available", "Available")))]
  }

  lemma MeetingTicksClassified()
    ensures Classified(MeetingTicks()) == [false, false, false]
  {
    var ticks := MeetingTicks();
    LightOnOfDoc("Busy", "InAMeeting");
    LightOnOfDoc("Available", "Available");
    ServiceSpellings();
    assert Classified(ticks[3..]) == [];
    assert Classified(ticks[2..]) == [false];
    assert Classified(ticks[1..]) == [false, false];
  }

  /**
    The meeting classifies as off, so only the first poll commands the
    light, and it commands off.
  */
  lemma MeetingScenario()
    ensures Run(Init(0, "first"), MeetingTicks()).commands == [false]
  {
    MeetingTicksClassified();
    var xs := [false, false, false];
    assert Transitions(Some(false), xs[3..]) == [];
    assert Transitions(Some(false), xs[2..]) == [];
    assert Transitions(Some(false), xs[1..]) == [];
    RunIsTransitions(Init(0, "first"), MeetingTicks());
  }

  /** At the expiry instant the token is kept; one second later it is replaced. */
  lemma RenewalBoundary()
    ensures Step(Init(0, "first"), Tick(3300, 3300, "second", None)).state.accessToken == "first"
    ensures Step(Init(0, "first"), Tick(3301, 3302, "second", None)).state ==
      PollState("second", 6602, None)
  {
  }
}
