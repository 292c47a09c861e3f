// The device's HTTP control API: status lines, the JSON content-type check,
// the chunked body receive, the bounded command queue between the request
// handlers and the worker task, the handlers' decision order and the
// worker's dispatch.
module HttpApi {
  import opened Esp
  import Playlist
  import AppState
  import ConfigStore

  /** Largest request body accepted, in bytes (MAX_JSON). */
  const MaxJson: nat := 32 * 1024

  /** Most bytes asked of one httpd_req_recv call (RECV_CHUNK). */
  const RecvChunk: nat := 4096

  /** Capacity of the command queue (QUEUE_LEN). */
  const QueueLen: nat := 10

  /** Size of the buffer the Content-Type value is copied into. */
  const ContentTypeBuffer: nat := 64

  /** The media type a JSON body must declare. */
  const JsonMediaType: string := "application/json"

  // ---------------------------------------------------------------------
  // Status lines
  // ---------------------------------------------------------------------

  /** The status codes the API answers with. */
  predicate KnownStatus(status: int)
  {
    status == 200 || status == 202 || status == 400 || status == 409 ||
    status == 413 || status == 415 || status == 500 || status == 503
  }

  /** The number written by the first three characters of a status line. */
  function LineCode(line: string): int
    requires |line| >= 3
  {
    (line[0] as int - '0' as int) * 100 + (line[1] as int - '0' as int) * 10 + (line[2] as int - '0' as int)
  }

  /** The status line every code outside the known set falls back to. */
  const InternalServerError: string := StatusLine("500", "Internal Server Error")

  /** http_status_str. */
  function HttpStatusStr(status: int): (r: string)
    ensures |r| > 4 && r[3] == ' '
    ensures KnownStatus(status) ==> LineCode(r) == status
    ensures !KnownStatus(status) ==> r == InternalServerError
  {
    match status
    case 200 => StatusLine("200", "OK")
    case 202 => StatusLine("202", "Accepted")
    case 400 => StatusLine("400", "Bad Request")
    case 409 => StatusLine("409", "Conflict")
    case 413 => StatusLine("413", "Payload Too Large")
    case 415 => StatusLine("415", "Unsupported Media Type")
    case 500 => InternalServerError
    case 503 => StatusLine("503", "Service Unavailable")
    case _ => InternalServerError
  }

  /** A status line: the three-digit code, a space, the reason phrase. */
  function StatusLine(code: string, reason: string): (r: string)
    requires |code| == 3 && |reason| > 0
    ensures |r| > 4 && r[3] == ' ' && LineCode(r) == LineCode(code)
  {
    code + " " + reason
  }

  /** Distinct known codes get distinct status lines; every other code is reported as 500. */
  lemma StatusLinesDistinct(a: int, b: int)
    requires KnownStatus(a) && KnownStatus(b) && a != b
    ensures HttpStatusStr(a) != HttpStatusStr(b)
    ensures forall c :: !KnownStatus(c) ==> HttpStatusStr(c) == HttpStatusStr(500)
  {
    assert LineCode(HttpStatusStr(a)) != LineCode(HttpStatusStr(b));
  }

  // ---------------------------------------------------------------------
  // Content type
  // ---------------------------------------------------------------------

  /**
   * ensure_json_content, given the request's Content-Type value (None when
   * absent). A value that does not fit the 64-byte buffer with its NUL makes
   * the header lookup fail; otherwise the first 16 characters are compared
   * ignoring case, and a shorter value fails at its terminating NUL.
   */
  predicate EnsureJsonContent(contentType: Option<string>)
  {
    contentType.Some? && |contentType.value| < ContentTypeBuffer &&
    |contentType.value| >= |JsonMediaType| &&
    Playlist.EqualIgnoringCase(contentType.value[..|JsonMediaType|], JsonMediaType)
  }

  /** A declared JSON type passes with any letter case and any parameters that keep it within the buffer. */
  lemma JsonContentAccepted(contentType: string, suffix: string)
    requires Playlist.EqualIgnoringCase(contentType, JsonMediaType)
    requires |contentType + suffix| < ContentTypeBuffer
    ensures EnsureJsonContent(Some(contentType + suffix))
  {
    assert (contentType + suffix)[..|JsonMediaType|] == contentType;
  }

  /** A missing header, one shorter than the media type, or one too long for the buffer is refused. */
  lemma JsonContentRefused(contentType: Option<string>)
    requires contentType.None? || |contentType.value| < |JsonMediaType| || |contentType.value| >= ContentTypeBuffer
    ensures !EnsureJsonContent(contentType)
  {
  }

  // ---------------------------------------------------------------------
  // Body receive
  // ---------------------------------------------------------------------

  /**
   * What one httpd_req_recv call returns: at most what was asked, what the
   * socket has ready at that call and what the client still sends; 0 (a
   * closed connection or a timeout) once the calls run past ready.
   */
  function Got(want: nat, call: nat, ready: seq<nat>, streamLeft: nat): nat
  {
    if call < |ready| then Min(Min(want, ready[call]), streamLeft) else 0
  }

  /**
   * The receive loop fills 'total' bytes when the client still has 'left'
   * bytes to send: every call from 'call' on returns something until
   * nothing is left.
   */
  function Fills(total: nat, call: nat, ready: seq<nat>, left: nat): bool
    decreases total
  {
    if total == 0 then true
    else
      var r := Got(Min(total, RecvChunk), call, ready, left);
      if r == 0 then false else Fills(total - r, call + 1, ready, left - r)
  }

  /** The status recv_body_json reports: 0 for a body read in full, 413 for an oversized one, 500 for a failed read. */
  function RecvStatus(contentLen: nat, ready: seq<nat>, stream: seq<char>): int
  {
    if contentLen > MaxJson then 413 else if Fills(contentLen, 0, ready, |stream|) then 0 else 500
  }

  /**
   * recv_body_json. 'stream' is what the client sends after the headers and
   * ready[k] how much the k-th receive call finds waiting.
   */
  method RecvBodyJson(contentLen: nat, ready: seq<nat>, stream: seq<char>)
    returns (status: int, buf: array<char>, outLen: nat, wants: seq<nat>)
    ensures status == RecvStatus(contentLen, ready, stream)
    ensures status == 413 ==> wants == []
    ensures forall k :: 0 <= k < |wants| ==> 0 < wants[k] <= RecvChunk
    ensures status == 0 ==> outLen == contentLen <= |stream| && buf.Length == outLen + 1
    ensures status == 0 ==> buf[..outLen] == stream[..contentLen] && buf[outLen] == '\0'
  {
    var total := contentLen;
    wants := [];
    outLen := 0;
    if total > MaxJson {
      status := 413;
      buf := new char[0];
      return;
    }
    buf := new char[total + 1];
    var recvd := 0;
    var call := 0;
    while recvd < total
      invariant 0 <= recvd <= total && recvd <= |stream|
      invariant Fills(total, 0, ready, |stream|) == Fills(total - recvd, call, ready, |stream| - recvd)
      invariant buf.Length == total + 1
      invariant buf[..recvd] == stream[..recvd]
      invariant forall k :: 0 <= k < |wants| ==> 0 < wants[k] <= RecvChunk
    {
      var want, r := ReceiveCall(buf, stream, ready, total, recvd, call);
      wants := wants + [want];
      if r == 0 {
        status := 500;
        return;
      }
      recvd := recvd + r;
      call := call + 1;
    }
    ghost var body := buf[..recvd];
    assert body == stream[..contentLen];
    buf[recvd] := '\0';
    assert buf[..recvd] == body;
    outLen := recvd;
    status := 0;
  }

  /**
   * One pass of the receive loop: it asks for what is left, at most one
   * chunk, and copies what the call returns right after the bytes already
   * received.
   */
  method ReceiveCall(buf: array<char>, stream: seq<char>, ready: seq<nat>, total: nat, recvd: nat, call: nat)
    returns (want: nat, r: nat)
    requires recvd < total && recvd <= |stream| && buf.Length == total + 1
    requires buf[..recvd] == stream[..recvd]
    modifies buf
    ensures 0 < want <= RecvChunk
    ensures r == 0 ==> !Fills(total - recvd, call, ready, |stream| - recvd)
    ensures r > 0 ==> recvd + r <= total && recvd + r <= |stream| && buf[..recvd + r] == stream[..recvd + r]
    ensures r > 0 ==> Fills(total - recvd, call, ready, |stream| - recvd) ==
                      Fills(total - (recvd + r), call + 1, ready, |stream| - (recvd + r))
  {
    want := total - recvd;
    if want > RecvChunk {
      want := RecvChunk;
    }
    r := Got(want, call, ready, |stream| - recvd);
    if r > 0 {
      CopyChunk(buf, stream, recvd, r);
    }
  }

  /** One receive call's bytes land right after those already received. */
  method CopyChunk(buf: array<char>, stream: seq<char>, recvd: nat, r: nat)
    requires recvd + r <= |stream| && recvd + r <= buf.Length
    requires buf[..recvd] == stream[..recvd]
    modifies buf
    ensures buf[..recvd + r] == stream[..recvd + r]
    ensures forall i :: recvd + r <= i < buf.Length ==> buf[i] == old(buf[i])
  {
    forall i | recvd <= i < recvd + r {
      buf[i] := stream[i];
    }
    forall i | 0 <= i < recvd
      ensures buf[i] == stream[i]
    {
      assert old(buf[..recvd])[i] == old(buf[i]);
    }
  }

  /** The number of receive calls a body of 'total' bytes needs when each is served in full. */
  function CallsNeeded(total: nat): nat
  {
    (total + RecvChunk - 1) / RecvChunk
  }

  /** A client that sends the whole body and always has a full chunk ready is read in CallsNeeded(total) calls. */
  lemma {:induction false} PromptClientFills(total: nat, call: nat, ready: seq<nat>, stream: seq<char>)
    requires |stream| >= total
    requires call + CallsNeeded(total) <= |ready|
    requires forall k :: call <= k < |ready| ==> ready[k] >= RecvChunk
    ensures Fills(total, call, ready, |stream|)
    decreases total
  {
    if total > 0 {
      var r := Got(Min(total, RecvChunk), call, ready, |stream|);
      assert r == Min(total, RecvChunk);
      if total > RecvChunk {
        assert CallsNeeded(total - r) + 1 == CallsNeeded(total);
      }
      PromptClientFills(total - r, call + 1, ready, stream[r..]);
    }
  }

  /** A client that sends fewer bytes than it declared never completes the body. */
  lemma {:induction false} ShortStreamFails(total: nat, call: nat, ready: seq<nat>, stream: seq<char>)
    requires |stream| < total
    ensures !Fills(total, call, ready, |stream|)
    decreases total
  {
    var r := Got(Min(total, RecvChunk), call, ready, |stream|);
    if r != 0 {
      ShortStreamFails(total - r, call + 1, ready, stream[r..]);
    }
  }

  // ---------------------------------------------------------------------
  // Command queue
  // ---------------------------------------------------------------------

  /** command_type_t; Other stands for a value outside the enumeration. */
  datatype CommandType = Reboot | SwapNext | SwapBack | Other(code: int)

  /** command_t. */
  datatype Command = Command(kind: CommandType, id: nat)

  /** The queue handle (absent before it is created), the queued commands and the last id issued (s_cmd_id). */
  datatype Queue = Queue(present: bool, items: seq<Command>, lastId: nat)

  /** enqueue_cmd: whether the command was queued, and the queue after. */
  function EnqueueCmd(q: Queue, t: CommandType): (bool, Queue)
  {
    if !q.present then (false, q)
    else
      var id := (q.lastId + 1) % U32;
      if |q.items| >= QueueLen then (false, q.(lastId := id))
      else (true, q.(items := q.items + [Command(t, id)], lastId := id))
  }

  /** A queue whose handle exists refuses only when full, and issues the next id modulo 2^32 either way. */
  lemma EnqueueOutcome(q: Queue, t: CommandType)
    requires q.present
    ensures EnqueueCmd(q, t).0 <==> |q.items| < QueueLen
    ensures EnqueueCmd(q, t).1.lastId == (q.lastId + 1) % U32
    ensures EnqueueCmd(q, t).0 ==> EnqueueCmd(q, t).1.items == q.items + [Command(t, (q.lastId + 1) % U32)]
    ensures !EnqueueCmd(q, t).0 ==> EnqueueCmd(q, t).1.items == q.items
  {
  }

  /** Without a queue handle nothing is queued and no id is consumed. */
  lemma MissingQueueConsumesNothing(q: Queue, t: CommandType)
    requires !q.present
    ensures EnqueueCmd(q, t) == (false, q)
  {
  }

  /** The queue never holds more than its capacity. */
  lemma EnqueueKeepsCapacity(q: Queue, t: CommandType)
    requires |q.items| <= QueueLen
    ensures |EnqueueCmd(q, t).1.items| <= QueueLen
  {
  }

  /** Enqueue a run of commands, one after another. */
  function EnqueueAll(q: Queue, ts: seq<CommandType>): Queue
    decreases |ts|
  {
    if |ts| == 0 then q else EnqueueAll(EnqueueCmd(q, ts[0]).1, ts[1..])
  }

  /** Every attempt on an existing queue, accepted or not, uses up one id: n attempts move the counter by n modulo 2^32. */
  lemma {:induction false} IdsCountAttempts(q: Queue, ts: seq<CommandType>)
    requires q.present && q.lastId < U32
    ensures EnqueueAll(q, ts).lastId == (q.lastId + |ts|) % U32
    ensures EnqueueAll(q, ts).present
    decreases |ts|
  {
    if |ts| > 0 {
      var q1 := EnqueueCmd(q, ts[0]).1;
      IdsCountAttempts(q1, ts[1..]);
      assert q1.lastId == (q.lastId + 1) % U32;
      ModAddOne(q.lastId, |ts| - 1);
    }
  }

  lemma ModAddOne(a: nat, b: nat)
    ensures ((a + 1) % U32 + b) % U32 == (a + 1 + b) % U32
  {
  }

  /** The command queue and the id counter, shared by the handlers and the worker. */
  class CommandQueue {
    var present: bool
    var items: seq<Command>
    var lastId: nat

    function State(): Queue
      reads this
    {
      Queue(present, items, lastId)
    }

    constructor (present: bool)
      ensures State() == Queue(present, [], 0)
    {
      this.present := present;
      items := [];
      lastId := 0;
    }

    /** enqueue_cmd; a send that finds the queue full within its wait is refused. */
    method Enqueue(t: CommandType) returns (ok: bool)
      modifies this
      ensures (ok, State()) == EnqueueCmd(old(State()), t)
    {
      if !present {
        return false;
      }
      lastId := (lastId + 1) % U32;
      if |items| >= QueueLen {
        return false;
      }
      items := items + [Command(t, lastId)];
      ok := true;
    }

    /** The worker's receive: the oldest command, if any. */
    method Receive() returns (c: Option<Command>)
      modifies this
      ensures old(items) == [] ==> c.None? && items == []
      ensures old(items) != [] ==> c == Some(old(items)[0]) && items == old(items)[1..]
      ensures present == old(present) && lastId == old(lastId)
    {
      if items == [] {
        return None;
      }
      c := Some(items[0]);
      items := items[1..];
    }
  }

  // ---------------------------------------------------------------------
  // Handlers
  // ---------------------------------------------------------------------

  /** POST /action/swap_next and /action/swap_back: the status they answer with. */
  function SwapStatus(state: AppState.State, contentLen: nat, contentType: Option<string>, queued: bool): int
  {
    if state == AppState.Error then 409
    else if contentLen > 0 && !EnsureJsonContent(contentType) then 415
    else if !queued then 503
    else 202
  }

  /** POST /action/reboot: the status it answers with; it does not look at the state. */
  function RebootStatus(contentLen: nat, contentType: Option<string>, queued: bool): int
  {
    if contentLen > 0 && !EnsureJsonContent(contentType) then 415
    else if !queued then 503
    else 202
  }

  /** A swap is accepted exactly when the device is not in ERROR, the body (if any) is JSON and the queue took it. */
  lemma SwapAcceptedIff(state: AppState.State, contentLen: nat, contentType: Option<string>, queued: bool)
    ensures SwapStatus(state, contentLen, contentType, queued) == 202 <==>
      (state != AppState.Error && (contentLen == 0 || EnsureJsonContent(contentType)) && queued)
    ensures state == AppState.Error ==> SwapStatus(state, contentLen, contentType, queued) == 409
    ensures SwapStatus(state, contentLen, contentType, queued) == 415 ==> state != AppState.Error
    ensures SwapStatus(state, contentLen, contentType, queued) == 503 ==>
      state != AppState.Error && (contentLen == 0 || EnsureJsonContent(contentType))
  {
  }

  /** Reboot is answered like a swap in a non-ERROR state, and also in ERROR, where a swap gets 409. */
  lemma RebootIgnoresState(state: AppState.State, contentLen: nat, contentType: Option<string>, queued: bool)
    ensures RebootStatus(contentLen, contentType, queued) == SwapStatus(AppState.Playing, contentLen, contentType, queued)
    ensures state == AppState.Error && queued && contentLen == 0 ==>
      RebootStatus(contentLen, contentType, queued) == 202 && SwapStatus(state, contentLen, contentType, queued) == 409
  {
  }

  /** A swap handler: the checks in order, enqueueing only when the earlier ones pass. */
  method HandleSwap(kind: CommandType, st: AppState.AppStateStore, q: CommandQueue,
                    contentLen: nat, contentType: Option<string>) returns (status: int)
    requires kind == SwapNext || kind == SwapBack
    modifies q
    ensures var reached := st.state != AppState.Error && (contentLen == 0 || EnsureJsonContent(contentType));
      (reached ==> (status == SwapStatus(st.state, contentLen, contentType, EnqueueCmd(old(q.State()), kind).0) &&
                    q.State() == EnqueueCmd(old(q.State()), kind).1)) &&
      (!reached ==> status == SwapStatus(st.state, contentLen, contentType, false) && q.State() == old(q.State()))
  {
    var s := st.Get();
    if s == AppState.Error {
      return 409;
    }
    if contentLen > 0 && !EnsureJsonContent(contentType) {
      return 415;
    }
    var ok := q.Enqueue(kind);
    if !ok {
      return 503;
    }
    status := 202;
  }

  /** h_post_reboot. */
  method HandleReboot(q: CommandQueue, contentLen: nat, contentType: Option<string>) returns (status: int)
    modifies q
    ensures var reached := contentLen == 0 || EnsureJsonContent(contentType);
      (reached ==> (status == RebootStatus(contentLen, contentType, EnqueueCmd(old(q.State()), Reboot).0) &&
                    q.State() == EnqueueCmd(old(q.State()), Reboot).1)) &&
      (!reached ==> status == 415 && q.State() == old(q.State()))
  {
    if contentLen > 0 && !EnsureJsonContent(contentType) {
      return 415;
    }
    var ok := q.Enqueue(Reboot);
    if !ok {
      return 503;
    }
    status := 202;
  }

  /**
   * PUT /config: the status it answers with, given the body receive status,
   * what the parser makes of the body and what the save returns.
   */
  function PutConfigStatus(contentType: Option<string>, recv: int, parsed: Option<ConfigStore.Json>, saveErr: Err): int
  {
    if !EnsureJsonContent(contentType) then 415
    else if recv == 413 then 413
    else if recv != 0 then 500
    else if parsed.None? || !parsed.value.isObject then 400
    else if saveErr != Ok then 500
    else 200
  }

  /** The checks come in order: a 200 means every earlier step passed, and nothing past a failed step matters. */
  lemma PutConfigOrder(contentType: Option<string>, recv: int, parsed: Option<ConfigStore.Json>, saveErr: Err)
    ensures PutConfigStatus(contentType, recv, parsed, saveErr) == 200 <==>
      (EnsureJsonContent(contentType) && recv == 0 && parsed.Some? && parsed.value.isObject && saveErr == Ok)
    ensures !EnsureJsonContent(contentType) ==> PutConfigStatus(contentType, recv, parsed, saveErr) == 415
    ensures PutConfigStatus(contentType, recv, parsed, saveErr) == 400 ==> EnsureJsonContent(contentType) && recv == 0
    ensures PutConfigStatus(contentType, recv, parsed, saveErr) in {200, 400, 413, 415, 500}
  {
  }

  /** h_put_config; the store is written only when the body is read and parses to an object. */
  method HandlePutConfig(cs: ConfigStore.Store, contentType: Option<string>, contentLen: nat,
                         ready: seq<nat>, stream: seq<char>, parsed: Option<ConfigStore.Json>,
                         f: ConfigStore.Faults) returns (status: int)
    modifies cs
    ensures var saves := EnsureJsonContent(contentType) && RecvStatus(contentLen, ready, stream) == 0 &&
                         parsed.Some? && parsed.value.isObject;
      status == PutConfigStatus(contentType, RecvStatus(contentLen, ready, stream), parsed,
                                ConfigStore.SaveError(old(cs.blobs), parsed, f)) &&
      cs.blobs == (if saves then ConfigStore.SavedBlobs(old(cs.blobs), parsed, f) else old(cs.blobs))
  {
    if !EnsureJsonContent(contentType) {
      return 415;
    }
    var errStatus, body, len, wants := RecvBodyJson(contentLen, ready, stream);
    if errStatus != 0 {
      if errStatus == 413 {
        return 413;
      }
      return 500;
    }
    if parsed.None? || !parsed.value.isObject {
      return 400;
    }
    var e := cs.Save(parsed, f);
    if e != Ok {
      return 500;
    }
    status := 200;
  }

  // ---------------------------------------------------------------------
  // Worker
  // ---------------------------------------------------------------------

  /** What the worker does for one command besides the state changes. */
  datatype Effect = Restart | CalledNext | CalledBack | NoEffect

  /** The state after the worker handles a command of the given kind, with set_state as written. */
  function WorkerState(s: AppState.State, kind: CommandType, hasNext: bool, hasBack: bool): AppState.State
  {
    var processing := AppState.SetStateAsWritten(s, AppState.Processing);
    match kind
    case Reboot => processing
    case SwapNext => AppState.SetStateAsWritten(processing, if hasNext then AppState.Playing else AppState.Error)
    case SwapBack => AppState.SetStateAsWritten(processing, if hasBack then AppState.Playing else AppState.Error)
    case Other(_) => AppState.SetStateAsWritten(processing, AppState.Error)
  }

  /**
   * Whatever the state before, a reboot leaves PROCESSING (the restart
   * follows), a swap with its callback ends in PLAYING, and a missing
   * callback or an unknown command ends in ERROR. ERROR is left like any
   * other state.
   */
  lemma WorkerOutcomes(s: AppState.State, kind: CommandType, hasNext: bool, hasBack: bool)
    ensures WorkerState(s, kind, hasNext, hasBack) == AppState.Playing <==>
      (kind == SwapNext && hasNext) || (kind == SwapBack && hasBack)
    ensures WorkerState(s, kind, hasNext, hasBack) == AppState.Processing <==> kind == Reboot
    ensures WorkerState(s, kind, hasNext, hasBack) == AppState.Error <==>
      (kind == SwapNext && !hasNext) || (kind == SwapBack && !hasBack) || kind.Other?
  {
  }

  /** As written, a reboot or a swap whose callback is set takes the device out of ERROR. */
  lemma WorkerLeavesError(kind: CommandType, hasNext: bool, hasBack: bool)
    requires kind == Reboot || (kind == SwapNext && hasNext) || (kind == SwapBack && hasBack)
    ensures WorkerState(AppState.Error, kind, hasNext, hasBack) != AppState.Error
  {
  }

  /** One turn of api_worker_task: enter PROCESSING, then dispatch on the command. */
  method WorkerStep(c: Command, st: AppState.AppStateStore, hasNext: bool, hasBack: bool) returns (effect: Effect)
    modifies st
    ensures st.state == WorkerState(old(st.state), c.kind, hasNext, hasBack)
    ensures effect == (match c.kind
                       case Reboot => Restart
                       case SwapNext => if hasNext then CalledNext else NoEffect
                       case SwapBack => if hasBack then CalledBack else NoEffect
                       case Other(_) => NoEffect)
  {
    st.EnterProcessing();
    match c.kind {
      case Reboot =>
        effect := Restart;
      case SwapNext =>
        if hasNext {
          effect := CalledNext;
          st.EnterPlaying();
        } else {
          effect := NoEffect;
          st.EnterError();
        }
      case SwapBack =>
        if hasBack {
          effect := CalledBack;
          st.EnterPlaying();
        } else {
          effect := NoEffect;
          st.EnterError();
        }
      case Other(_) =>
        effect := NoEffect;
        st.EnterError();
    }
  }
}
