/** The hbbs refresh: every live numeric id asked once, in batches of 128, and confirmed ids marked online. */
module PresenceRefresh {
  import opened Common
  import opened Varint
  import W = PresenceWire
  import D = Devices
  import R = DeviceRuns

  const BATCH: nat := 128

  datatype RefreshError = Wire(error: W.WireError) | Timeout

  /** What hbbs sends back for one request, or nothing within five seconds. */
  datatype Answer = Bytes(stream: seq<byte>) | Late

  /** The bytes of an ASCII id. */
  function IdBytes(id: string): (bytes: W.PeerId)
    ensures |bytes| == |id|
  {
    seq(|id|, i requires 0 <= i < |id| => id[i] as int % 256)
  }

  function Wired(ids: seq<string>): (wired: seq<W.PeerId>)
    ensures |wired| == |ids| && forall i :: 0 <= i < |ids| ==> wired[i] == IdBytes(ids[i])
  {
    seq(|ids|, i requires 0 <= i < |ids| => IdBytes(ids[i]))
  }

  /** query: refused if the request is too large, else what hbbs's answer to the request decodes to. */
  function Queried(batch: seq<string>, hbbs: seq<byte> -> Answer): Result<seq<bool>, RefreshError> {
    var payload := W.Payload(Wired(batch));
    if |payload| > W.MAX_REQUEST then Err(Wire(W.RequestTooLarge))
    else
      match hbbs(RequestFor(batch))
      case Late => Err(Timeout)
      case Bytes(stream) =>
        match W.ParseAnswer(stream, |batch|)
        case Ok(states) => Ok(states)
        case Err(e) => Err(Wire(e))
  }

  /** The bytes sent for a batch that fits. */
  function RequestFor(batch: seq<string>): seq<byte> {
    var payload := W.Payload(Wired(batch));
    W.Header(|payload|, 2) + payload
  }

  method Query(batch: seq<string>, hbbs: seq<byte> -> Answer) returns (r: Result<seq<bool>, RefreshError>)
    ensures r == Queried(batch, hbbs)
    ensures r == Err(Timeout) <==> |W.Payload(Wired(batch))| <= 0x3fff && hbbs(RequestFor(batch)) == Late
    ensures r.Ok? <==> |W.Payload(Wired(batch))| <= 0x3fff && hbbs(RequestFor(batch)).Bytes? &&
                       W.ParseAnswer(hbbs(RequestFor(batch)).stream, |batch|).Ok?
    ensures r.Ok? ==> W.ParseAnswer(hbbs(RequestFor(batch)).stream, |batch|) == Ok(r.value)
  {
    var request := W.BuildRequest(Wired(batch));
    if request.Err? {
      return Err(Wire(request.error));
    }
    match hbbs(request.value) {
      case Late => return Err(Timeout);
      case Bytes(stream) =>
        var states := W.ReadAnswer(stream, |batch|);
        return match states case Ok(s) => Ok(s) case Err(e) => Err(Wire(e));
    }
  }

  /** ids.chunks(128). */
  function Chunks(ids: seq<string>): seq<seq<string>> {
    if ids == [] then []
    else if |ids| <= BATCH then [ids]
    else [ids[..BATCH]] + Chunks(ids[BATCH..])
  }

  /** The ids of a batch whose bit is set. */
  function Confirmed(batch: seq<string>, states: seq<bool>): set<string> {
    set i | 0 <= i < |batch| && i < |states| && states[i] :: batch[i]
  }

  type QueryResult = Result<seq<bool>, RefreshError>

  /** The table after a batch has been answered and marked. */
  ghost function AfterBatch(rows: D.Table, batch: seq<string>, result: QueryResult, now: Time): D.Table {
    match result
    case Ok(states) => D.Execute(rows, D.ConfirmOnline(Confirmed(batch, states)), now)
    case Err(_) => rows
  }

  /** The table after the batches that have a result. */
  ghost function AfterBatches(rows: D.Table, batches: seq<seq<string>>, results: seq<QueryResult>, clock: nat -> Time)
    : D.Table
    requires |results| <= |batches|
    decreases |results|
  {
    if results == [] then rows
    else
      var n := |results| - 1;
      AfterBatch(AfterBatches(rows, batches, results[..n], clock), batches[n], results[n], clock(n))
  }

  method QueryAndMark(server: D.Server, batch: seq<string>, hbbs: seq<byte> -> Answer, now: Time)
    returns (result: QueryResult)
    modifies server
    ensures result == Queried(batch, hbbs)
    ensures server.rows == AfterBatch(old(server.rows), batch, result, now)
  {
    result := Query(batch, hbbs);
    if result.Ok? {
      server.MarkOnline(Confirmed(batch, result.value), now);
    }
  }

  /** rustdesk_id ~ '^[0-9]+$'. */
  predicate IsNumeric(id: string) {
    id != "" && forall i :: 0 <= i < |id| ==> '0' <= id[i] <= '9'
  }

  /** What SELECT DISTINCT returns, in any order: the numeric ids of the live devices. */
  ghost predicate Selected(rows: D.Table, ids: seq<string>) {
    && NoRepeats(ids)
    && forall id :: id in ids <==>
         IsNumeric(id) && exists k :: k in rows && rows[k].deletedAt.None? && rows[k].rustdeskId == id
  }

  /** The results are those of the batches that were asked, in order; only the last one can be a failure. */
  ghost predicate Asked(batches: seq<seq<string>>, hbbs: nat -> seq<byte> -> Answer, results: seq<QueryResult>) {
    && |results| <= |batches|
    && (forall b :: 0 <= b < |results| ==> results[b] == Queried(batches[b], hbbs(b)))
    && (forall b :: 0 <= b < |results| - 1 ==> results[b].Ok?)
    && (|results| == |batches| || (results != [] && results[|results| - 1].Err?))
  }

  /** ids is the result of the SELECT; hbbs says how each batch's request is answered, clock when it is marked. */
  method Refresh(server: D.Server, ids: seq<string>, hbbs: nat -> seq<byte> -> Answer, clock: nat -> Time)
    returns (results: seq<QueryResult>)
    requires Selected(server.rows, ids)
    modifies server
    ensures Asked(Chunks(ids), hbbs, results)
    ensures server.rows == AfterBatches(old(server.rows), Chunks(ids), results, clock)
  {
    hide Queried, AfterBatch, Chunks, Selected;
    var batches := Chunks(ids);
    results := [];
    while |results| < |batches|
      invariant |results| <= |batches|
      invariant forall b :: 0 <= b < |results| ==> results[b] == Queried(batches[b], hbbs(b)) && results[b].Ok?
      invariant server.rows == AfterBatches(old(server.rows), batches, results, clock)
      decreases |batches| - |results|
    {
      var n := |results|;
      var result := QueryAndMark(server, batches[n], hbbs(n), clock(n));
      assert (results + [result])[..n] == results;
      results := results + [result];
      if result.Err? {
        return;
      }
    }
  }

  // ---------------------------------------------------------------------------------------------
  // What a refresh does

  function Concat(batches: seq<seq<string>>): seq<string> {
    if batches == [] then [] else batches[0] + Concat(batches[1..])
  }

  /** The batches, one after the other, are the ids, so each id is asked exactly once; each holds 128 ids, but the last,
      which holds the rest. */
  lemma {:induction false} ChunksCover(ids: seq<string>)
    ensures Concat(Chunks(ids)) == ids
    ensures forall b :: 0 <= b < |Chunks(ids)| ==> 0 < |Chunks(ids)[b]| <= 128
    ensures forall b :: 0 <= b < |Chunks(ids)| - 1 ==> |Chunks(ids)[b]| == 128
  {
    if 0 < |ids| <= BATCH {
      assert Chunks(ids)[1..] == [];
      assert Concat([ids]) == ids;
    } else if ids != [] {
      ChunksCover(ids[BATCH..]);
      assert Chunks(ids)[1..] == Chunks(ids[BATCH..]);
    }
  }

  ghost predicate Disjoint(batches: seq<seq<string>>) {
    forall b, c, id :: 0 <= b < c < |batches| && id in batches[b] ==> id !in batches[c]
  }

  lemma {:induction false} ChunksComeFrom(ids: seq<string>, b: nat, id: string)
    requires b < |Chunks(ids)| && id in Chunks(ids)[b]
    ensures id in ids
  {
    if |ids| > BATCH && b > 0 {
      ChunksComeFrom(ids[BATCH..], b - 1, id);
    }
  }

  /** Distinct ids never meet in two batches. */
  lemma {:induction false} ChunksDisjoint(ids: seq<string>)
    requires NoRepeats(ids)
    ensures Disjoint(Chunks(ids))
  {
    if |ids| > BATCH {
      var tail := ids[BATCH..];
      ChunksDisjoint(tail);
      forall b, c, id | 0 <= b < c < |Chunks(ids)| && id in Chunks(ids)[b] ensures id !in Chunks(ids)[c] {
        if b == 0 && id in Chunks(ids)[c] {
          ChunksComeFrom(tail, c - 1, id);
        }
      }
    }
  }

  /** Batch b confirms the id: it is asked there, the query succeeds and its bit is set. */
  ghost predicate Confirms(batches: seq<seq<string>>, results: seq<QueryResult>, b: nat, id: string) {
    && b < |results| <= |batches| && results[b].Ok?
    && exists i :: 0 <= i < |batches[b]| && batches[b][i] == id && i < |results[b].value| && results[b].value[i]
  }

  lemma ConfirmsIsAsked(batches: seq<seq<string>>, results: seq<QueryResult>, b: nat, id: string)
    requires Confirms(batches, results, b, id)
    ensures b < |results| <= |batches| && id in batches[b]
  {
  }

  /** Only live devices with numeric ids are ever confirmed. */
  lemma OnlySelectedAreConfirmed(rows: D.Table, ids: seq<string>, results: seq<QueryResult>, b: nat, id: string)
    requires Selected(rows, ids) && Confirms(Chunks(ids), results, b, id)
    ensures IsNumeric(id) && exists k :: k in rows && rows[k].deletedAt.None? && rows[k].rustdeskId == id
  {
    ConfirmsIsAsked(Chunks(ids), results, b, id);
    ChunksComeFrom(ids, b, id);
  }

  lemma AfterOneMore(rows: D.Table, batches: seq<seq<string>>, results: seq<QueryResult>, clock: nat -> Time, n: nat)
    requires n < |results| <= |batches|
    ensures AfterBatches(rows, batches, results[..n + 1], clock) ==
            AfterBatch(AfterBatches(rows, batches, results[..n], clock), batches[n], results[n], clock(n))
  {
    assert results[..n + 1][..n] == results[..n];
  }

  /** A device in the trash, or whose id no batch confirms, is left as it was. */
  lemma {:induction false} UnconfirmedIsKept(rows: D.Table, batches: seq<seq<string>>, results: seq<QueryResult>,
                                             clock: nat -> Time, n: nat, k: D.Key)
    requires n <= |results| <= |batches| && k in rows
    requires rows[k].deletedAt.Some? || forall b: nat :: b < n ==> !Confirms(batches, results, b, rows[k].rustdeskId)
    ensures var after := AfterBatches(rows, batches, results[..n], clock); k in after && after[k] == rows[k]
  {
    if n > 0 {
      UnconfirmedIsKept(rows, batches, results, clock, n - 1, k);
      AfterOneMore(rows, batches, results, clock, n - 1);
      hide *;
      BatchMarks(AfterBatches(rows, batches, results[..n - 1], clock), batches, results, clock(n - 1), n - 1, k);
    }
  }

  /** A live device whose id batch b confirms is seen at that batch's time, and only then. */
  lemma {:induction false} ConfirmedIsSeen(rows: D.Table, batches: seq<seq<string>>, results: seq<QueryResult>,
                                           clock: nat -> Time, n: nat, b: nat, k: D.Key)
    requires Disjoint(batches) && b < n <= |results| <= |batches| && k in rows && rows[k].deletedAt.None?
    requires Confirms(batches, results, b, rows[k].rustdeskId)
    ensures var after := AfterBatches(rows, batches, results[..n], clock);
      k in after && after[k] == D.Touched(rows[k], clock(b))
  {
    OnlyOneConfirms(batches, results, b, rows[k].rustdeskId);
    AfterOneMore(rows, batches, results, clock, n - 1);
    TouchKeepsId(rows[k], clock(b));
    hide *;
    if b == n - 1 {
      UnconfirmedIsKept(rows, batches, results, clock, n - 1, k);
    } else {
      ConfirmedIsSeen(rows, batches, results, clock, n - 1, b, k);
    }
    BatchMarks(AfterBatches(rows, batches, results[..n - 1], clock), batches, results, clock(n - 1), n - 1, k);
  }

  lemma OnlyOneConfirms(batches: seq<seq<string>>, results: seq<QueryResult>, b: nat, id: string)
    requires Disjoint(batches) && Confirms(batches, results, b, id)
    ensures forall c: nat :: Confirms(batches, results, c, id) ==> c == b
  {
    forall c: nat | Confirms(batches, results, c, id) ensures c == b {
      ConfirmsIsAsked(batches, results, b, id);
      ConfirmsIsAsked(batches, results, c, id);
    }
  }

  lemma TouchKeepsId(d: D.Device, now: Time)
    ensures D.Touched(d, now).rustdeskId == d.rustdeskId && D.Touched(d, now).deletedAt == d.deletedAt
  {
  }

  /** A refresh, exactly, up to and including a failed query: a live device is seen at the time of the one batch that
      confirms its id, and every other device, the trash included, is left as it was. */
  lemma RefreshExactly(rows: D.Table, ids: seq<string>, results: seq<QueryResult>, clock: nat -> Time, k: D.Key)
    requires NoRepeats(ids) && |results| <= |Chunks(ids)| && k in rows
    ensures var after := AfterBatches(rows, Chunks(ids), results, clock);
      && k in after
      && (rows[k].deletedAt.None? ==>
            forall b: nat :: Confirms(Chunks(ids), results, b, rows[k].rustdeskId) ==>
              after[k] == D.Touched(rows[k], clock(b)))
      && (rows[k].deletedAt.Some? || (forall b: nat :: !Confirms(Chunks(ids), results, b, rows[k].rustdeskId)) ==>
            after[k] == rows[k])
  {
    ChunksDisjoint(ids);
    var batches, id := Chunks(ids), rows[k].rustdeskId;
    assert results[..|results|] == results;
    hide *;
    if b: nat :| rows[k].deletedAt.None? && Confirms(batches, results, b, id) {
      OnlyOneConfirms(batches, results, b, id);
      ConfirmsIsAsked(batches, results, b, id);
      ConfirmedIsSeen(rows, batches, results, clock, |results|, b, k);
    } else {
      UnconfirmedIsKept(rows, batches, results, clock, |results|, k);
    }
  }

  lemma BatchMarks(rows: D.Table, batches: seq<seq<string>>, results: seq<QueryResult>, now: Time, b: nat, k: D.Key)
    requires b < |results| <= |batches| && k in rows
    ensures var after := AfterBatch(rows, batches[b], results[b], now);
      k in after && after[k] == if Confirms(batches, results, b, rows[k].rustdeskId) && rows[k].deletedAt.None?
                                then D.Touched(rows[k], now) else rows[k]
  {
  }

  // ---------------------------------------------------------------------------------------------
  // A refresh with a truthful hbbs

  /** The bytes spell the id, character by character. */
  predicate Spells(bytes: W.PeerId, id: string) {
    |bytes| == |id| && forall i :: 0 <= i < |id| ==> bytes[i] == id[i] as int
  }

  /** Whether each requested peer is one of the online ids. */
  ghost function Known(peers: seq<W.PeerId>, online: set<string>): (bits: seq<bool>)
    ensures |bits| == |peers|
    ensures forall i :: 0 <= i < |peers| ==> (bits[i] <==> exists id :: id in online && Spells(peers[i], id))
  {
    seq(|peers|, i requires 0 <= i < |peers| => exists id :: id in online && Spells(peers[i], id))
  }

  /** The answer is a frame, of any header width that holds its length, with the bits of the response. */
  ghost predicate IsAnswer(answer: Answer, bits: seq<bool>) {
    exists width: nat, rest: seq<byte> :: FramesAnswer(answer, bits, width, rest)
  }

  ghost predicate FramesAnswer(answer: Answer, bits: seq<bool>, width: nat, rest: seq<byte>) {
    var response := W.EncodeResponse(bits);
    && 1 <= width <= 4 && 4 * |response| + width - 1 < W.Pow256(width)
    && answer == Bytes(W.Header(|response|, width) + response + rest)
  }

  /** hbbs answers every request it can parse with what it knows. */
  ghost predicate Truthful(hbbs: seq<byte> -> Answer, online: set<string>) {
    forall request: seq<byte> :: W.ParseRequest(request).Ok? ==>
      IsAnswer(hbbs(request), Known(W.ParseRequest(request).value, online))
  }

  /** Numeric ids go over the wire as they are written, so different ids as different bytes. */
  lemma NumericIsSpelled(id: string, other: string)
    requires IsNumeric(id)
    ensures Spells(IdBytes(id), id)
    ensures Spells(IdBytes(id), other) ==> id == other
  {
    if Spells(IdBytes(id), other) {
      forall i | 0 <= i < |id| ensures id[i] == other[i] {
        assert IdBytes(id)[i] == id[i] as int == other[i] as int;
      }
    }
  }

  lemma ResponseIsShort(bits: seq<bool>)
    requires |bits| <= 128
    ensures |W.EncodeResponse(bits)| <= W.MAX_RESPONSE
  {
    var states := W.Pack(bits);
    assert |states| <= 16;
    assert |Encode(|states|)| == 1 && |Encode(W.STATES_TAG)| == 1;
    var body := W.EncodeField(W.STATES_TAG, states);
    assert |body| <= 18;
    assert |Encode(|body|)| == 1;
    assert Encode(W.RESPONSE_TAG)[1..] == Encode(W.RESPONSE_TAG / 128);
  }

  /** A batch that fits gets hbbs's knowledge about exactly its ids. */
  lemma TruthfulAnswer(batch: seq<string>, hbbs: seq<byte> -> Answer, online: set<string>)
    requires Truthful(hbbs, online) && |batch| <= 128
    requires forall i :: 0 <= i < |batch| ==> |batch[i]| <= 125
    ensures Queried(batch, hbbs) == Ok(Known(Wired(batch), online))
  {
    var peers := Wired(batch);
    W.BatchFits(peers);
    W.RequestRoundTrip(peers);
    var payload := W.Payload(peers);
    var request := RequestFor(batch);
    var bits := Known(peers, online);
    hide W.Payload, W.ParseRequest, W.Header, W.EncodeResponse, W.ParseAnswer, W.Pow256, Known, Wired;
    assert IsAnswer(hbbs(request), bits);
    var width: nat, rest: seq<byte> :| FramesAnswer(hbbs(request), bits, width, rest);
    ResponseIsShort(bits);
    W.AnswerRoundTrip(bits, width, rest);
  }

  lemma BatchIsShort(ids: seq<string>, b: nat)
    requires b < |Chunks(ids)| && forall id :: id in ids ==> |id| <= 125
    ensures |Chunks(ids)[b]| <= 128 && forall i :: 0 <= i < |Chunks(ids)[b]| ==> |Chunks(ids)[b][i]| <= 125
  {
    ChunksCover(ids);
    forall i | 0 <= i < |Chunks(ids)[b]| ensures |Chunks(ids)[b][i]| <= 125 {
      ChunksComeFrom(ids, b, Chunks(ids)[b][i]);
    }
  }

  lemma {:induction false} InSomeBatch(ids: seq<string>, id: string) returns (b: nat)
    requires id in ids
    ensures b < |Chunks(ids)| && id in Chunks(ids)[b]
  {
    if |ids| <= BATCH || id in ids[..BATCH] {
      b := 0;
    } else {
      var i :| 0 <= i < |ids| && ids[i] == id;
      assert ids[BATCH..][i - BATCH] == id;
      b := InSomeBatch(ids[BATCH..], id);
      b := b + 1;
    }
  }

  lemma ConfirmedByKnowledge(ids: seq<string>, results: seq<QueryResult>, b: nat, id: string, online: set<string>)
    requires b < |results| <= |Chunks(ids)| && id in Chunks(ids)[b] && IsNumeric(id)
    requires results[b] == Ok(Known(Wired(Chunks(ids)[b]), online))
    ensures Confirms(Chunks(ids), results, b, id) <==> id in online
  {
    var batch := Chunks(ids)[b];
    hide Chunks;
    forall i | 0 <= i < |batch| && batch[i] == id
      ensures Known(Wired(batch), online)[i] <==> id in online
    {
      NumericIsSpelled(id, id);
      if other :| other in online && Spells(Wired(batch)[i], other) {
        NumericIsSpelled(id, other);
      }
    }
  }

  lemma ConfirmedOnlyThere(ids: seq<string>, results: seq<QueryResult>, b: nat, id: string)
    requires NoRepeats(ids) && b < |Chunks(ids)| && id in Chunks(ids)[b]
    ensures forall c: nat :: Confirms(Chunks(ids), results, c, id) ==> c == b
  {
    ChunksDisjoint(ids);
    forall c: nat | Confirms(Chunks(ids), results, c, id) ensures c == b {
      ConfirmsIsAsked(Chunks(ids), results, c, id);
    }
  }

  /** One or more digits. */
  predicate AllDigits(id: string) {
    |id| > 0 && forall c :: c in id ==> c in "0123456789"
  }

  lemma IsDigit(c: char)
    ensures c in "0123456789" <==> '0' <= c <= '9'
  {
    assert '0' <= c <= '9' ==> c == "0123456789"[c as int - '0' as int];
  }

  lemma DigitsAreNumeric(id: string)
    ensures AllDigits(id) <==> IsNumeric(id)
  {
    forall i | 0 <= i < |id| ensures id[i] in "0123456789" <==> '0' <= id[i] <= '9' {
      IsDigit(id[i]);
    }
    assert forall i :: 0 <= i < |id| ==> id[i] in id;
  }

  /** With an hbbs that answers truthfully, and ids no longer than 125 characters, no batch fails, and a refresh marks
      exactly the live devices with numeric ids that hbbs knows to be online when it is asked about them. */
  lemma TruthfulRefresh(rows: D.Table, ids: seq<string>, hbbs: nat -> seq<byte> -> Answer, online: nat -> set<string>,
                        results: seq<QueryResult>, clock: nat -> Time, k: D.Key)
    requires Selected(rows, ids) && Asked(Chunks(ids), hbbs, results) && k in rows
    requires forall b: nat :: b < |Chunks(ids)| ==> Truthful(hbbs(b), online(b))
    requires forall id :: id in ids ==> |id| <= 125
    ensures |results| == |Chunks(ids)|
    ensures var after, id := AfterBatches(rows, Chunks(ids), results, clock), rows[k].rustdeskId;
      && k in after
      && (rows[k].deletedAt.None? && AllDigits(id) ==>
            exists b: nat :: b < |Chunks(ids)| && id in Chunks(ids)[b] &&
              after[k] == if id in online(b) then D.Touched(rows[k], clock(b)) else rows[k])
      && (rows[k].deletedAt.Some? || !AllDigits(id) ==> after[k] == rows[k])
  {
    var batches, id := Chunks(ids), rows[k].rustdeskId;
    DigitsAreNumeric(id);
    forall b: nat | b < |results| ensures results[b] == Ok(Known(Wired(batches[b]), online(b))) {
      BatchIsShort(ids, b);
      TruthfulAnswer(batches[b], hbbs(b), online(b));
    }
    hide Queried, Known, Wired, AfterBatches, Chunks, Truthful, AllDigits;
    assert |results| == |batches|;
    RefreshExactly(rows, ids, results, clock, k);
    if rows[k].deletedAt.None? && IsNumeric(id) {
      var b := InSomeBatch(ids, id);
      ConfirmedByKnowledge(ids, results, b, id, online(b));
      ConfirmedOnlyThere(ids, results, b, id);
    } else if rows[k].deletedAt.None? {
      forall b: nat ensures !Confirms(batches, results, b, id) {
        if Confirms(batches, results, b, id) {
          OnlySelectedAreConfirmed(rows, ids, results, b, id);
        }
      }
    }
  }

  // ---------------------------------------------------------------------------------------------
  // A refresh among other statements

  /** In a run of the device table, marks are the positions of a refresh's statements, one per answered batch, in
      order; heartbeats, agents and administrators may act before, between and after them. */
  ghost predicate MarksOf(events: seq<R.Event>, marks: seq<nat>, batches: seq<seq<string>>, results: seq<QueryResult>) {
    && |marks| <= |results| <= |batches|
    && (forall b :: 0 <= b < |results| ==> (results[b].Ok? <==> b < |marks|))
    && (forall b, c :: 0 <= b < c < |marks| ==> marks[b] < marks[c])
    && (forall b :: 0 <= b < |marks| ==> marks[b] < |events|)
    && (forall b :: 0 <= b < |marks| ==>
          events[marks[b]].statement == D.ConfirmOnline(Confirmed(batches[b], results[b].value)))
  }

  /** The mark of batch b reaches k: k is live when it executes, and the batch confirms the id that k then has. */
  ghost predicate Reaches(events: seq<R.Event>, marks: seq<nat>, batches: seq<seq<string>>, results: seq<QueryResult>,
                          b: nat, k: D.Key) {
    && b < |marks| && marks[b] < |events| && k in R.Run(events[..marks[b]])
    && R.Run(events[..marks[b]])[k].deletedAt.None?
    && Confirms(batches, results, b, R.Run(events[..marks[b]])[k].rustdeskId)
  }

  lemma MarkContactsExactly(events: seq<R.Event>, marks: seq<nat>, batches: seq<seq<string>>, results: seq<QueryResult>,
                            b: nat, k: D.Key)
    requires MarksOf(events, marks, batches, results) && b < |marks|
    ensures R.ContactAt(events, marks[b], k) <==> Reaches(events, marks, batches, results, b, k)
  {
    hide R.Run;
  }

  /** A device keeps its RustDesk id through every statement that does not contact it. */
  lemma IdStays(rows: D.Table, s: D.Statement, now: Time, k: D.Key)
    requires k in rows && k in D.Execute(rows, s, now) && (!R.Contacts(rows, s, k) || s.ConfirmOnline?)
    ensures D.Execute(rows, s, now)[k].rustdeskId == rows[k].rustdeskId
  {
  }

  /** When the device was last seen before event n; nothing if it is not in the table. */
  ghost function LastSeen(events: seq<R.Event>, n: nat, k: D.Key): Option<Time>
    requires n <= |events|
  {
    if k in R.Run(events[..n]) then R.Run(events[..n])[k].lastSeen else None
  }

  /** Events start to n of a run, in which only the refresh contacts k and nothing removes it. */
  ghost predicate OnlyMarksContact(events: seq<R.Event>, marks: seq<nat>, start: nat, n: nat, k: D.Key) {
    && start <= n <= |events|
    && (forall i :: start <= i <= n ==> k in R.Run(events[..i]))
    && (forall i :: start <= i < n && R.ContactAt(events, i, k) ==> i in marks)
  }

  lemma OnlyMarksPrefix(events: seq<R.Event>, marks: seq<nat>, start: nat, n: nat, k: D.Key)
    requires OnlyMarksContact(events, marks, start, n, k)
    ensures start <= n <= |events| && k in R.Run(events[..start]) && k in R.Run(events[..n])
    ensures start < n ==> OnlyMarksContact(events, marks, start, n - 1, k)
    ensures start < n && R.ContactAt(events, n - 1, k) ==> n - 1 in marks
  {
  }

  lemma {:induction false} IdStaysThrough(events: seq<R.Event>, marks: seq<nat>, batches: seq<seq<string>>,
                                          results: seq<QueryResult>, start: nat, m: nat, n: nat, k: D.Key)
    requires MarksOf(events, marks, batches, results) && OnlyMarksContact(events, marks, start, n, k)
    requires start <= m <= n
    ensures k in R.Run(events[..start]) && k in R.Run(events[..m])
    ensures R.Run(events[..m])[k].rustdeskId == R.Run(events[..start])[k].rustdeskId
    decreases n
  {
    OnlyMarksPrefix(events, marks, start, n, k);
    if start < n {
      if m < n {
        IdStaysThrough(events, marks, batches, results, start, m, n - 1, k);
      } else {
        IdStaysThrough(events, marks, batches, results, start, n - 1, n - 1, k);
        R.RunSnoc(events, n - 1);
        hide R.Run, D.Execute, R.Contacts;
        IdStays(R.Run(events[..n - 1]), events[n - 1].statement, events[n - 1].at, k);
      }
    }
  }

  /** The mark of batch b reaches k within the stretch. */
  ghost predicate ReachesIn(events: seq<R.Event>, marks: seq<nat>, batches: seq<seq<string>>,
                            results: seq<QueryResult>, start: nat, n: nat, b: nat, k: D.Key) {
    Reaches(events, marks, batches, results, b, k) && start <= marks[b] < n
  }

  /** So at most one mark of the stretch reaches the device. */
  lemma ReachedOnce(events: seq<R.Event>, marks: seq<nat>, batches: seq<seq<string>>, results: seq<QueryResult>,
                    start: nat, n: nat, b: nat, c: nat, k: D.Key)
    requires MarksOf(events, marks, batches, results) && Disjoint(batches)
    requires OnlyMarksContact(events, marks, start, n, k)
    requires ReachesIn(events, marks, batches, results, start, n, b, k)
    requires ReachesIn(events, marks, batches, results, start, n, c, k)
    ensures b == c
  {
    IdStaysThrough(events, marks, batches, results, start, marks[b], n, k);
    IdStaysThrough(events, marks, batches, results, start, marks[c], n, k);
    OnlyOneConfirms(batches, results, b, R.Run(events[..start])[k].rustdeskId);
  }

  /** Event n of the run is a mark that reaches k, or leaves its time alone. */
  lemma LastSeenStep(events: seq<R.Event>, marks: seq<nat>, batches: seq<seq<string>>, results: seq<QueryResult>,
                     n: nat, k: D.Key) returns (b: Option<nat>)
    requires MarksOf(events, marks, batches, results) && n < |events|
    requires k in R.Run(events[..n]) && k in R.Run(events[..n + 1])
    requires R.ContactAt(events, n, k) ==> n in marks
    ensures b.Some? ==> Reaches(events, marks, batches, results, b.value, k) && marks[b.value] == n
    ensures b.None? ==> forall c: nat :: Reaches(events, marks, batches, results, c, k) ==> marks[c] != n
    ensures LastSeen(events, n + 1, k) == if b.Some? then Some(events[n].at) else LastSeen(events, n, k)
  {
    hide R.Run, R.Contacts, D.Execute;
    R.RunSnoc(events, n);
    R.PresenceStep(R.Run(events[..n]), events[n].statement, events[n].at, k);
    if R.ContactAt(events, n, k) {
      var c: nat :| c < |marks| && marks[c] == n;
      MarkContactsExactly(events, marks, batches, results, c, k);
      b := Some(c);
    } else {
      b := None;
      forall c: nat | Reaches(events, marks, batches, results, c, k) ensures marks[c] != n {
        MarkContactsExactly(events, marks, batches, results, c, k);
      }
    }
  }

  lemma NoneReachesIn(events: seq<R.Event>, marks: seq<nat>, batches: seq<seq<string>>, results: seq<QueryResult>,
                      n: nat, k: D.Key)
    ensures forall c: nat :: !ReachesIn(events, marks, batches, results, n, n, c, k)
  {
  }

  lemma ReachesOneMore(events: seq<R.Event>, marks: seq<nat>, batches: seq<seq<string>>, results: seq<QueryResult>,
                       start: nat, n: nat, b: nat, k: D.Key)
    requires start <= n
    ensures ReachesIn(events, marks, batches, results, start, n + 1, b, k) <==>
            ReachesIn(events, marks, batches, results, start, n, b, k) ||
            (Reaches(events, marks, batches, results, b, k) && marks[b] == n)
  {
  }

  /** The refresh among other statements: while nothing else contacts a device, it keeps its id and is seen exactly at
      the mark of the batch that confirms that id, if it is live just then; trashed or unconfirmed, it keeps its
      time. */
  lemma {:induction false} RefreshAmongOthers(events: seq<R.Event>, marks: seq<nat>, batches: seq<seq<string>>,
                                              results: seq<QueryResult>, start: nat, n: nat, k: D.Key)
    returns (b: Option<nat>)
    requires MarksOf(events, marks, batches, results) && Disjoint(batches)
    requires OnlyMarksContact(events, marks, start, n, k)
    ensures k in R.Run(events[..start]) && k in R.Run(events[..n])
    ensures R.Run(events[..n])[k].rustdeskId == R.Run(events[..start])[k].rustdeskId
    ensures b.Some? ==> ReachesIn(events, marks, batches, results, start, n, b.value, k)
    ensures forall c: nat :: ReachesIn(events, marks, batches, results, start, n, c, k) ==> b == Some(c)
    ensures LastSeen(events, n, k) ==
            if b.Some? then Some(events[marks[b.value]].at) else LastSeen(events, start, k)
    decreases n
  {
    hide *;
    OnlyMarksPrefix(events, marks, start, n, k);
    IdStaysThrough(events, marks, batches, results, start, n, n, k);
    if start == n {
      NoneReachesIn(events, marks, batches, results, n, k);
      b := None;
    } else {
      var before := RefreshAmongOthers(events, marks, batches, results, start, n - 1, k);
      var last := LastSeenStep(events, marks, batches, results, n - 1, k);
      b := if last.Some? then last else before;
      if b.Some? {
        ReachesOneMore(events, marks, batches, results, start, n - 1, b.value, k);
      }
      forall c: nat | ReachesIn(events, marks, batches, results, start, n, c, k) ensures b == Some(c) {
        ReachesOneMore(events, marks, batches, results, start, n - 1, c, k);
        if b.Some? {
          ReachedOnce(events, marks, batches, results, start, n, b.value, c, k);
        }
      }
    }
  }
}
