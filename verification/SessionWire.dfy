/** The session on top of the wire: bytes cut anywhere, requests settled by the right answer. */
module SessionWire {
  import opened Lines
  import opened LineReader
  import opened Protocol
  import opened Framing
  import Session

  /**
   A device answers request `id` at item k of its output, nothing before it answers it
   or stops the reader, and the answer arrives: it fits on a line and is not cut on the edge.
   Then, however else the output is cut and whatever noise surrounds it, the request resolves
   with that answer.
   */
  lemma {:induction false} AnswerResolvesRequest(s: Session.State, items: seq<Item>, tail: string,
                                                 chunks: seq<string>, id: string, k: nat)
    requires Session.Inv(s) && id in s.pending
    requires forall i :: 0 <= i < |items| ==> ValidItem(items[i])
    requires NoNewline(tail) && NoObject(tail)
    requires Concat(chunks) == Terminated(Raws(items)) + tail
    requires k < |items| && Arrives(items[..k], items[k], chunks, MAX_LINE)
    requires Session.IsResponse(items[k].m) && items[k].m.id == id
    requires forall i :: 0 <= i < k && items[i].Frame? ==> !Answers(items[i].m, id)
    ensures var s' := Session.Deliver(s, Received(ReadAll(chunks, MAX_LINE).lines));
            id in s'.promises && s'.promises[id] == Session.Resolved(items[k].m) && id !in s'.pending
  {
    EndToEnd(items, tail, chunks, MAX_LINE);
    var j := DeliveredPosition(items, chunks, id, k, MAX_LINE);
    Session.FirstResponseWins(s, Delivered(items, chunks, MAX_LINE), id, j);
  }

  ghost predicate Answers(m: Message, id: string) {
    Session.StopsReader(m) || (Session.IsResponse(m) && m.id == id)
  }

  lemma {:induction false} DeliveredPosition(items: seq<Item>, chunks: seq<string>, id: string, k: nat, max: nat)
    returns (j: nat)
    requires k < |items| && Arrives(items[..k], items[k], chunks, max)
    requires forall i :: 0 <= i < k && items[i].Frame? ==> !Answers(items[i].m, id)
    ensures j < |Delivered(items, chunks, max)| && Delivered(items, chunks, max)[j] == items[k].m
    ensures forall i :: 0 <= i < j ==> !Answers(Delivered(items, chunks, max)[i], id)
    decreases |items|
  {
    var n := |items| - 1;
    if k == n {
      j := |Delivered(items[..n], chunks, max)|;
      DeliveredFrom(items[..n], chunks, id, max);
    } else {
      assert items[..n][..k] == items[..k];
      j := DeliveredPosition(items[..n], chunks, id, k, max);
    }
  }

  lemma {:induction false} DeliveredFrom(items: seq<Item>, chunks: seq<string>, id: string, max: nat)
    requires forall i :: 0 <= i < |items| && items[i].Frame? ==> !Answers(items[i].m, id)
    ensures forall i :: 0 <= i < |Delivered(items, chunks, max)| ==> !Answers(Delivered(items, chunks, max)[i], id)
    decreases |items|
  {
    if items != [] {
      DeliveredFrom(items[..|items| - 1], chunks, id, max);
    }
  }
}
