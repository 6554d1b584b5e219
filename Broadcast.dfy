/**
 * The real-time push channel. Only what was handed to it is recorded:
 * delivery to connected clients is outside the model.
 */
module Broadcast {
  import opened Domain

  class AlertsHub {
    /** Every batch sent on the `alerts` channel, oldest first. */
    ghost var published: seq<seq<Alert>>

    constructor ()
      ensures published == []
    {
      published := [];
    }

    /** Sends one batch of new alerts to all clients. */
    method SendAll(batch: seq<Alert>)
      modifies this
      ensures published == old(published) + [batch]
    {
      published := published + [batch];
    }
  }
}
