/**
  The ledger update rule of `updateAwards`: decode the channel topic, add the
  delta to the user's count (a missing user counts as 0), refuse with
  `NegativeAwardError` when the result is not positive, and otherwise write
  the re-encoded ledger back to the topic.
*/
module Update {
  import opened Results
  import opened Ledger
  import opened Codec

  datatype AwardError = NegativeAwardError

  /** `(awards[userId] || 0) + delta`: on a ledger with unique keys, the
      user's balance in the map view plus the delta. */
  function NextCount(awards: Awards, userId: string, delta: int): (r: int)
    ensures Distinct(awards) ==> r == Balance(ToMap(awards), userId) + delta
  {
    (match Get(awards, userId) case Some(c) => c case None => 0) + delta
  }

  /** The transition `updateAwards` performs on the topic text: it fails
      exactly when the user's current balance plus the delta is not positive
      (a result of 0 is refused as well). */
  function Apply(topic: string, userId: string, delta: int): (r: Result<string, AwardError>)
    ensures r.Err? <==> Balance(ToMap(ParseAwards(topic)), userId) + delta <= 0
  {
    var awards := ParseAwards(topic);
    var next := NextCount(awards, userId, delta);
    if next <= 0 then Err(NegativeAwardError)
    else Ok(SerializeAwards(Put(awards, userId, next)))
  }

  /** The topic once `updateAwards` has run: the updated encoding, or the old
      topic when the call throws. */
  function TopicAfter(topic: string, userId: string, delta: int): string {
    match Apply(topic, userId, delta)
    case Ok(t) => t
    case Err(_) => topic
  }

  /** A successful update writes a topic that decodes to the old ledger with
      only the user's entry changed, to the old balance plus the delta. Its
      entries keep their order; a new user is added at the end. */
  lemma ApplyDecodes(topic: string, userId: string, delta: int)
    requires IsNumeral(userId)
    requires Apply(topic, userId, delta).Ok?
    ensures var before := ParseAwards(topic);
            var next := Balance(ToMap(before), userId) + delta;
            next > 0
            && ParseAwards(Apply(topic, userId, delta).value) == Put(before, userId, next)
            && ToMap(ParseAwards(Apply(topic, userId, delta).value)) == ToMap(before)[userId := next]
  {
    var before := ParseAwards(topic);
    var next := Balance(ToMap(before), userId) + delta;
    var after := Put(before, userId, next);
    assert Apply(topic, userId, delta).value == SerializeAwards(after) by {
      assert NextCount(before, userId, delta) == next;
    }
    assert ParseAwards(SerializeAwards(after)) == after by {
      PutWellFormed(before, userId, next);
      ParseSerialize(after);
    }
    assert ToMap(after) == ToMap(before)[userId := next];
  }

  /** Assigning a count to a digit-string id keeps a ledger well formed. */
  lemma PutWellFormed(awards: Awards, userId: string, count: nat)
    requires WellFormed(awards) && IsNumeral(userId)
    ensures WellFormed(Put(awards, userId, count))
  {
    var r := Put(awards, userId, count);
    forall i | 0 <= i < |r| ensures IsNumeral(r[i].userId) {
    }
  }

  /** The channel whose topic holds the encoded ledger. */
  class Channel {
    var topic: string

    constructor (topic: string)
      ensures this.topic == topic
    {
      this.topic := topic;
    }
  }

  /** `updateAwards(channel, userId, delta)`: on success the topic is replaced
      by the updated encoding; on failure the topic is left as it was. */
  method UpdateAwards(channel: Channel, userId: string, delta: int) returns (outcome: Result<(), AwardError>)
    modifies channel
    ensures outcome.Err? <==> Balance(ToMap(ParseAwards(old(channel.topic))), userId) + delta <= 0
    ensures outcome.Err? ==> outcome.error == NegativeAwardError && channel.topic == old(channel.topic)
    ensures outcome.Ok? ==> channel.topic == Apply(old(channel.topic), userId, delta).value
    ensures channel.topic == TopicAfter(old(channel.topic), userId, delta)
  {
    var awards := ParseAwards(channel.topic);
    var next := NextCount(awards, userId, delta);
    if next <= 0 {
      return Err(NegativeAwardError);
    }
    channel.topic := SerializeAwards(Put(awards, userId, next));
    outcome := Ok(());
  }
}
