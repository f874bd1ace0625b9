/** `ack_batch` deletes in one statement what acking its elements one by one would. */
module AckBatches {
  import opened Wrappers
  import opened Queue

  /** The single ack an element stands for: plain ids check the lease, pairs the token. */
  function AckFor(e: Element, worker: string): Event
  {
    match e
    case Plain(id) => Ack(id, worker, None)
    case Pair(id, attempt) => Ack(id, worker, Some(attempt))
  }

  /** Ack the elements in order, each by its own form, adding up the reported counts. */
  function AckEach(db: Db, elements: seq<Element>, worker: string, now: int): (Db, nat)
    decreases |elements|
  {
    if elements == [] then (db, 0)
    else
      var ev := AckFor(elements[0], worker);
      var (after, count) := AckEach(Delete(db, Matched(db, ev, now)), elements[1..], worker, now);
      (after, |Matched(db, ev, now)| + count)
  }

  lemma BatchSplits(db: Db, e: Element, rest: seq<Element>, worker: string, now: int)
    ensures var first := Matched(db, AckFor(e, worker), now);
            var later := BatchIds(Delete(db, first), rest, worker, now);
            BatchIds(db, [e] + rest, worker, now) == first + later && first !! later
  {
  }

  lemma DeleteTwice(db: Db, a: set<int>, b: set<int>)
    ensures Delete(Delete(db, a), b) == Delete(db, a + b)
  {
  }

  /** Duplicates and mixed forms included, the batch leaves the same table and reports the same count. */
  lemma {:induction false} BatchIsAckEach(db: Db, elements: seq<Element>, worker: string, now: int)
    ensures var all := Matched(db, AckBatch(elements, worker), now);
            && Exec(db, AckBatch(elements, worker), now) == Ok(AckEach(db, elements, worker, now).0)
            && |all| == AckEach(db, elements, worker, now).1
    decreases |elements|
  {
    var all := BatchIds(db, elements, worker, now);
    if elements == [] {
      assert all == {};
      assert Delete(db, all).live == db.live;
    } else {
      var e, rest := elements[0], elements[1..];
      assert elements == [e] + rest;
      var first := Matched(db, AckFor(e, worker), now);
      BatchIsAckEach(Delete(db, first), rest, worker, now);
      BatchSplits(db, e, rest, worker, now);
      DeleteTwice(db, first, BatchIds(Delete(db, first), rest, worker, now));
    }
  }
}
