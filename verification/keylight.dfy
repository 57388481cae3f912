/**
  The body of the PUT that sets the key light: `{"lights": [{"on": 0|1}]}`.
  The body always names the absolute state wanted; it is never a toggle.
*/
module KeyLight {
  import opened Optional

  datatype LightSetting = LightSetting(on: int)

  datatype LightsBody = LightsBody(lights: seq<LightSetting>)

  /** The `on` field for a wanted state: one for on, zero for off. */
  function OnField(on: bool): (v: int)
    ensures v == 0 || v == 1
    ensures v == 1 <==> on
  {
    if on then 1 else 0
  }

  /** The body sent by `keylight_set_on(on)`. */
  function Payload(on: bool): LightsBody {
    LightsBody([LightSetting(OnField(on))])
  }

  /**
    The state a body asks a single light to take: present only when the
    body names exactly one light and its `on` field is zero or one.
  */
  function Requested(body: LightsBody): Option<bool> {
    if |body.lights| == 1 && body.lights[0].on in {0, 1}
    then Some(body.lights[0].on == 1)
    else None
  }

  /**
    The payload is absolute: it asks for exactly the state it was built
    from, whatever the light's current state, so delivering it again
    changes nothing. Different wanted states give different bodies.
  */
  lemma PayloadRequestsItsState(on: bool)
    ensures Requested(Payload(on)) == Some(on)
    ensures Payload(on) != Payload(!on)
  {
  }

  /** Every well-formed single-light request is the payload of the state it asks for. */
  lemma RequestedThenPayload(body: LightsBody)
    requires Requested(body).Some?
    ensures Payload(Requested(body).value) == body
  {
  }
}
