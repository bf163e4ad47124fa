/** Answers a probe trusts, and polls a hub trusts (`common/src/ack.rs`,
    `common/src/poll.rs`), as steps of a world in which anyone can write anything
    but a signature is made only with its key. Byte strings are texts. */
module SignedAnswers {
  import opened Wrappers

  const SIGNATURE_LEN: nat := 64
  const POLL_DOMAIN := "blentinel command poll v1\n"
  const ANSWER_DOMAIN := "blentinel command poll answer v1\n"
  const PROTOCOL_VERSION: nat := 10
  const MIN_SUPPORTED_PROTOCOL_VERSION: nat := 9
  const MAX_CLOCK_SKEW_SECS: int := 300

  /** Hubs and probes have keys of their own; a key stands for both its halves. */
  datatype Key = HubKey(id: nat) | ProbeKey(id: nat)

  /** An ack: the hash of the report it answers, and all else it says. */
  datatype Ack = Ack(reportSha: string, rest: int)

  /** An answer to a poll: the hash of the poll, and all else it says. */
  datatype Answer = Answer(pollSha: string, rest: int)

  /** A poll without its signature. */
  datatype Poll = Poll(version: nat, probe: Key, timestamp: int)

  // ----- JSON and the hash ---------------------------------------------------

  /** How messages are written as JSON, and how JSON is read as them. */
  datatype Json = Json(ack: Ack -> string, readAck: string -> Option<Ack>,
                       answer: Answer -> string, readAnswer: string -> Option<Answer>,
                       poll: Poll -> string, report: int -> string)

  predicate IsObject(text: string) {
    text != "" && text[0] == '{'
  }

  /** What every JSON text of an object or an array starts with. */
  predicate MayBeJson(text: string) {
    text != "" && text[0] in " \t\r\n{["
  }

  /** Messages are written as objects and read back; what is read is JSON. */
  ghost predicate Faithful(json: Json) {
    && (forall a :: IsObject(json.ack(a)) && json.readAck(json.ack(a)) == Some(a))
    && (forall b :: IsObject(json.answer(b)) && json.readAnswer(json.answer(b)) == Some(b))
    && (forall p :: IsObject(json.poll(p)))
    && (forall p, q :: json.poll(p) == json.poll(q) ==> p == q)
    && (forall r :: IsObject(json.report(r)))
    && (forall text :: json.readAck(text).Some? ==> MayBeJson(text))
    && (forall text :: json.readAnswer(text).Some? ==> MayBeJson(text))
  }

  type Hash = string -> string

  ghost predicate CollisionFree(sha: Hash) {
    forall x, y :: sha(x) == sha(y) ==> x == y
  }

  // ----- Signatures ----------------------------------------------------------

  /** A signature that was made: its bytes, by whose key, over what. */
  datatype Signature = Signature(key: Key, message: string, bytes: string)

  /** `verify_with_key` of an ideal scheme. */
  predicate Verifies(made: set<Signature>, key: Key, message: string, bytes: string) {
    Signature(key, message, bytes) in made
  }

  // ----- The source: opening -------------------------------------------------

  datatype AckError = CannotOpen | BadSignature | Malformed | WrongReport

  predicate SignedByAny(made: set<Signature>, pinned: seq<Key>, message: string, bytes: string) {
    exists i :: 0 <= i < |pinned| && Verifies(made, pinned[i], message, bytes)
  }

  /** `open_signed`; `unsealed` is what the sealed box held, if it opens. */
  function OpenSigned<T>(made: set<Signature>, unsealed: Option<string>, domain: string, pinned: seq<Key>,
                         read: string -> Option<T>): Result<T, AckError> {
    match unsealed
    case None => Err(CannotOpen)
    case Some(signed) =>
      if |signed| < SIGNATURE_LEN then Err(Malformed)
      else
        var (bytes, json) := (signed[..SIGNATURE_LEN], signed[SIGNATURE_LEN..]);
        if !SignedByAny(made, pinned, domain + json, bytes) then Err(BadSignature)
        else
          match read(json)
          case None => Err(Malformed)
          case Some(value) => Ok(value)
  }

  /** `open_ack_signed_by_any`. */
  function OpenAck(made: set<Signature>, unsealed: Option<string>, pinned: seq<Key>, report: string,
                   json: Json, sha: Hash): Result<Ack, AckError> {
    match OpenSigned(made, unsealed, "", pinned, json.readAck)
    case Err(e) => Err(e)
    case Ok(ack) => if ack.reportSha != sha(report) then Err(WrongReport) else Ok(ack)
  }

  /** `open_answer`. */
  function OpenAnswer(made: set<Signature>, unsealed: Option<string>, pinned: seq<Key>, poll: string,
                      json: Json, sha: Hash): Result<Answer, AckError> {
    match OpenSigned(made, unsealed, ANSWER_DOMAIN, pinned, json.readAnswer)
    case Err(e) => Err(e)
    case Ok(answer) => if answer.pollSha != sha(poll) then Err(WrongReport) else Ok(answer)
  }

  /** `signed_bytes`. */
  function PollBytes(poll: Poll, json: Json): string {
    POLL_DOMAIN + json.poll(poll)
  }

  function Distance(a: int, b: int): int {
    if a < b then b - a else a - b
  }

  /** `open_poll`, after the box is unsealed and its JSON is read: the checks of
      version, signature and time. */
  predicate PollOk(made: set<Signature>, poll: Poll, signature: Option<string>, now: int, json: Json) {
    && MIN_SUPPORTED_PROTOCOL_VERSION <= poll.version <= PROTOCOL_VERSION
    && signature.Some? && Verifies(made, poll.probe, PollBytes(poll, json), signature.value)
    && Distance(now, poll.timestamp) <= MAX_CLOCK_SKEW_SECS
  }

  // ----- The world -----------------------------------------------------------

  datatype Event =
    | AckSealed(key: Key, ack: Ack, report: string)
    | AnswerSealed(key: Key, answer: Answer, sealedPoll: string)
    | PollMade(poll: Poll)
    | ReportMade(key: Key, status: int)
    | AckAccepted(pinned: seq<Key>, ack: Ack, report: string)
    | AnswerAccepted(pinned: seq<Key>, answer: Answer, sealedPoll: string)
    | PollAccepted(poll: Poll, now: int)

  /** The signatures made so far and what happened. */
  datatype World = World(made: set<Signature>, log: set<Event>)

  /** One thing that happens. `bytes` are those of the signature that is made, and
      `unsealed` whatever anyone sent. */
  datatype Step =
    | SealAck(key: Key, ack: Ack, report: string, bytes: string)
    | SealAnswer(key: Key, answer: Answer, sealedPoll: string, bytes: string)
    | MakePoll(poll: Poll, bytes: string)
    | MakeReport(key: Key, status: int, bytes: string)
    | AcceptAck(unsealed: Option<string>, pinned: seq<Key>, report: string)
    | AcceptAnswer(unsealed: Option<string>, pinned: seq<Key>, sealedPoll: string)
    | AcceptPoll(poll: Poll, signature: Option<string>, now: int)

  predicate HubKeys(keys: seq<Key>) {
    forall i :: 0 <= i < |keys| ==> keys[i].HubKey?
  }

  /** A hub answers what it got with its key; a probe signs its polls and reports
      with its own; each accepts what its checks pass. */
  predicate Enabled(w: World, step: Step, json: Json, sha: Hash) {
    match step
    case SealAck(key, ack, report, _) => key.HubKey? && ack.reportSha == sha(report)
    case SealAnswer(key, answer, poll, _) => key.HubKey? && answer.pollSha == sha(poll)
    case MakePoll(poll, _) => poll.probe.ProbeKey?
    case MakeReport(key, _, _) => key.ProbeKey?
    case AcceptAck(unsealed, pinned, report) =>
      HubKeys(pinned) && OpenAck(w.made, unsealed, pinned, report, json, sha).Ok?
    case AcceptAnswer(unsealed, pinned, poll) =>
      HubKeys(pinned) && OpenAnswer(w.made, unsealed, pinned, poll, json, sha).Ok?
    case AcceptPoll(poll, signature, now) => PollOk(w.made, poll, signature, now, json)
  }

  function Next(w: World, step: Step, json: Json, sha: Hash): World
    requires Enabled(w, step, json, sha)
  {
    match step
    case SealAck(key, ack, report, bytes) =>
      World(w.made + {Signature(key, "" + json.ack(ack), bytes)}, w.log + {AckSealed(key, ack, report)})
    case SealAnswer(key, answer, poll, bytes) =>
      World(w.made + {Signature(key, ANSWER_DOMAIN + json.answer(answer), bytes)},
            w.log + {AnswerSealed(key, answer, poll)})
    case MakePoll(poll, bytes) =>
      World(w.made + {Signature(poll.probe, PollBytes(poll, json), bytes)}, w.log + {PollMade(poll)})
    case MakeReport(key, status, bytes) =>
      World(w.made + {Signature(key, json.report(status), bytes)}, w.log + {ReportMade(key, status)})
    case AcceptAck(unsealed, pinned, report) =>
      w.(log := w.log + {AckAccepted(pinned, OpenAck(w.made, unsealed, pinned, report, json, sha).value, report)})
    case AcceptAnswer(unsealed, pinned, poll) =>
      w.(log := w.log + {AnswerAccepted(pinned, OpenAnswer(w.made, unsealed, pinned, poll, json, sha).value, poll)})
    case AcceptPoll(poll, _, now) =>
      w.(log := w.log + {PollAccepted(poll, now)})
  }

  /** The steps can happen one after another, from nothing. */
  predicate IsRun(steps: seq<Step>, json: Json, sha: Hash)
    decreases |steps|, 0
  {
    steps == [] ||
    (IsRun(steps[..|steps| - 1], json, sha)
     && Enabled(After(steps[..|steps| - 1], json, sha), steps[|steps| - 1], json, sha))
  }

  function After(steps: seq<Step>, json: Json, sha: Hash): World
    requires IsRun(steps, json, sha)
    decreases |steps|, 1
  {
    if steps == [] then World({}, {})
    else Next(After(steps[..|steps| - 1], json, sha), steps[|steps| - 1], json, sha)
  }

  // ----- Kinds of messages ---------------------------------------------------

  /** What a signature of an event is over. */
  function Signed(e: Event, json: Json): Option<(Key, string)> {
    match e
    case AckSealed(key, ack, _) => Some((key, json.ack(ack)))
    case AnswerSealed(key, answer, _) => Some((key, ANSWER_DOMAIN + json.answer(answer)))
    case PollMade(poll) => Some((poll.probe, PollBytes(poll, json)))
    case ReportMade(key, status) => Some((key, json.report(status)))
    case _ => None
  }

  /** The domains and the objects after them can be told apart. */
  lemma DomainsApart(x: string, y: string)
    requires IsObject(x) && IsObject(y)
    ensures ANSWER_DOMAIN + x == ANSWER_DOMAIN + y ==> x == y
    ensures POLL_DOMAIN + x == POLL_DOMAIN + y ==> x == y
    ensures ANSWER_DOMAIN + x != POLL_DOMAIN + y
    ensures ANSWER_DOMAIN + x != y && POLL_DOMAIN + x != y
  {
    var a, p := |ANSWER_DOMAIN|, |POLL_DOMAIN|;
    assert (ANSWER_DOMAIN + x)[a..] == x && (ANSWER_DOMAIN + y)[a..] == y;
    assert (POLL_DOMAIN + x)[p..] == x && (POLL_DOMAIN + y)[p..] == y;
    assert (ANSWER_DOMAIN + x)[23] == 'a' && (POLL_DOMAIN + y)[23] == 'v';
    assert (ANSWER_DOMAIN + x)[0] == 'b' && (POLL_DOMAIN + x)[0] == 'b';
  }

  /** No text signed with a domain reads as JSON. */
  lemma DomainIsNoJson(x: string)
    ensures !MayBeJson(ANSWER_DOMAIN + x) && !MayBeJson(POLL_DOMAIN + x)
  {
    assert (ANSWER_DOMAIN + x)[0] == 'b' && (POLL_DOMAIN + x)[0] == 'b';
  }

  // ----- What every run keeps ------------------------------------------------

  ghost predicate Caused(w: World, g: Signature, json: Json) {
    exists e :: e in w.log && Signed(e, json) == Some((g.key, g.message))
  }

  /** Every signature was made by an event; hubs answer what they got with hub
      keys, probes sign with theirs. */
  ghost predicate Inv(w: World, json: Json, sha: Hash) {
    && (forall g :: g in w.made ==> Caused(w, g, json))
    && (forall e :: e in w.log ==> Proper(e, sha))
  }

  predicate Proper(e: Event, sha: Hash) {
    match e
    case AckSealed(key, ack, report) => key.HubKey? && ack.reportSha == sha(report)
    case AnswerSealed(key, answer, poll) => key.HubKey? && answer.pollSha == sha(poll)
    case PollMade(poll) => poll.probe.ProbeKey?
    case ReportMade(key, _) => key.ProbeKey?
    case _ => true
  }

  lemma CausedStays(w: World, v: World, g: Signature, json: Json)
    requires Caused(w, g, json) && w.log <= v.log
    ensures Caused(v, g, json)
  {
    hide Signed;
    var e :| e in w.log && Signed(e, json) == Some((g.key, g.message));
    assert e in v.log;
  }

  lemma InvKept(w: World, step: Step, json: Json, sha: Hash)
    requires Inv(w, json, sha) && Enabled(w, step, json, sha)
    ensures Inv(Next(w, step, json, sha), json, sha)
  {
    hide OpenAck, OpenAnswer, PollOk, PollBytes;
    var v := Next(w, step, json, sha);
    forall g | g in v.made ensures Caused(v, g, json) {
      if g in w.made {
        CausedStays(w, v, g, json);
      } else {
        NewIsCaused(w, step, json, sha, g);
      }
    }
  }

  lemma NewIsCaused(w: World, step: Step, json: Json, sha: Hash, g: Signature)
    requires Enabled(w, step, json, sha)
    requires g in Next(w, step, json, sha).made && g !in w.made
    ensures Caused(Next(w, step, json, sha), g, json)
  {
    hide OpenAck, OpenAnswer, PollOk, PollBytes;
    var v := Next(w, step, json, sha);
    match step
    case SealAck(key, ack, report, bytes) =>
      assert "" + json.ack(ack) == json.ack(ack);
      assert AckSealed(key, ack, report) in v.log && Signed(AckSealed(key, ack, report), json).Some?;
    case SealAnswer(key, answer, poll, bytes) =>
      assert AnswerSealed(key, answer, poll) in v.log && Signed(AnswerSealed(key, answer, poll), json).Some?;
    case MakePoll(poll, bytes) =>
      assert PollMade(poll) in v.log && Signed(PollMade(poll), json).Some?;
    case MakeReport(key, status, bytes) =>
      assert ReportMade(key, status) in v.log && Signed(ReportMade(key, status), json).Some?;
    case _ =>
  }

  lemma {:induction false} RunKeepsInv(steps: seq<Step>, json: Json, sha: Hash)
    requires IsRun(steps, json, sha)
    ensures Inv(After(steps, json, sha), json, sha)
    decreases |steps|
  {
    hide Inv, Next, Enabled;
    if steps == [] {
      InvAtStart(json, sha);
    } else {
      var init := steps[..|steps| - 1];
      RunKeepsInv(init, json, sha);
      InvKept(After(init, json, sha), steps[|steps| - 1], json, sha);
    }
  }

  lemma InvAtStart(json: Json, sha: Hash)
    ensures Inv(World({}, {}), json, sha)
  {
  }

  // ----- What is accepted ----------------------------------------------------

  /** What opens was signed by a pinned key. */
  lemma OpenedIsSigned<T>(made: set<Signature>, unsealed: Option<string>, domain: string, pinned: seq<Key>,
                          read: string -> Option<T>)
    returns (i: nat, g: Signature, text: string)
    requires OpenSigned(made, unsealed, domain, pinned, read).Ok?
    ensures i < |pinned| && g in made && g.key == pinned[i] && g.message == domain + text
    ensures read(text) == Some(OpenSigned(made, unsealed, domain, pinned, read).value)
  {
    var bytes := unsealed.value[..SIGNATURE_LEN];
    text := unsealed.value[SIGNATURE_LEN..];
    i :| 0 <= i < |pinned| && Verifies(made, pinned[i], domain + text, bytes);
    g := Signature(pinned[i], domain + text, bytes);
  }

  /** A signature made in a run has a proper cause. */
  lemma MadeIsCaused(steps: seq<Step>, json: Json, sha: Hash, g: Signature) returns (e: Event)
    requires IsRun(steps, json, sha) && g in After(steps, json, sha).made
    ensures e in After(steps, json, sha).log && Proper(e, sha) && Signed(e, json) == Some((g.key, g.message))
  {
    RunKeepsInv(steps, json, sha);
    hide IsRun, After, Signed, Proper;
    var w := After(steps, json, sha);
    assert Caused(w, g, json);
    e :| e in w.log && Signed(e, json) == Some((g.key, g.message));
  }

  /** What a hub signed that reads as an ack was sealed as that ack. */
  lemma SignedAsAck(e: Event, key: Key, text: string, ack: Ack, report: string, json: Json, sha: Hash)
    requires Faithful(json) && CollisionFree(sha) && key.HubKey?
    requires Proper(e, sha) && Signed(e, json) == Some((key, text))
    requires json.readAck(text) == Some(ack) && ack.reportSha == sha(report)
    ensures e == AckSealed(key, ack, report)
  {
    assert MayBeJson(text);
    match e
    case AckSealed(_, sealed, answered) =>
      assert text == json.ack(sealed);
      assert sealed == ack;
      assert sha(answered) == sha(report);
    case AnswerSealed(_, answer, _) =>
      DomainIsNoJson(json.answer(answer));
    case _ =>
  }

  /** What a hub signed with the domain of answers was sealed as the answer it reads
      as. */
  lemma SignedAsAnswer(e: Event, key: Key, text: string, answer: Answer, poll: string, json: Json, sha: Hash)
    requires Faithful(json) && CollisionFree(sha) && key.HubKey?
    requires Proper(e, sha) && Signed(e, json) == Some((key, ANSWER_DOMAIN + text))
    requires json.readAnswer(text) == Some(answer) && answer.pollSha == sha(poll)
    ensures e == AnswerSealed(key, answer, poll)
  {
    match e
    case AckSealed(_, sealed, _) =>
      DomainIsNoObject(text);
    case AnswerSealed(_, sealed, answered) =>
      assert (ANSWER_DOMAIN + text)[|ANSWER_DOMAIN|..] == text;
      assert (ANSWER_DOMAIN + json.answer(sealed))[|ANSWER_DOMAIN|..] == json.answer(sealed);
      assert sealed == answer;
      assert sha(answered) == sha(poll);
    case _ =>
  }

  /** What was signed as a poll was made as that poll. */
  lemma SignedAsPoll(e: Event, poll: Poll, json: Json, sha: Hash)
    requires Faithful(json) && Proper(e, sha) && Signed(e, json) == Some((poll.probe, PollBytes(poll, json)))
    ensures e == PollMade(poll)
  {
    match e
    case AckSealed(_, ack, _) =>
      DomainIsNoObject(json.poll(poll));
    case AnswerSealed(_, answer, _) =>
      DomainsApart(json.answer(answer), json.poll(poll));
    case PollMade(p) =>
      DomainsApart(json.poll(p), json.poll(poll));
    case ReportMade(_, _) =>
      DomainIsNoObject(json.poll(poll));
    case _ =>
  }

  lemma DomainIsNoObject(x: string)
    ensures !IsObject(ANSWER_DOMAIN + x) && !IsObject(POLL_DOMAIN + x)
  {
    assert (ANSWER_DOMAIN + x)[0] == 'b' && (POLL_DOMAIN + x)[0] == 'b';
  }

  /** An ack that a probe accepts was sealed before, by a holder of one of its
      pinned keys, as an ack, for exactly the report it sent. */
  lemma AcceptedAckWasSealed(steps: seq<Step>, json: Json, sha: Hash, unsealed: Option<string>, pinned: seq<Key>,
                             report: string)
    requires IsRun(steps, json, sha) && Faithful(json) && CollisionFree(sha)
    requires Enabled(After(steps, json, sha), AcceptAck(unsealed, pinned, report), json, sha)
    ensures
      var w := After(steps, json, sha);
      var ack := OpenAck(w.made, unsealed, pinned, report, json, sha).value;
      exists i :: 0 <= i < |pinned| && AckSealed(pinned[i], ack, report) in w.log
  {
    hide IsRun, After, OpenSigned, Proper, Signed, Faithful, CollisionFree;
    var w := After(steps, json, sha);
    var ack := OpenAck(w.made, unsealed, pinned, report, json, sha).value;
    var i, g, text := OpenedIsSigned(w.made, unsealed, "", pinned, json.readAck);
    assert "" + text == text;
    var e := MadeIsCaused(steps, json, sha, g);
    SignedAsAck(e, g.key, text, ack, report, json, sha);
  }

  /** An answer that a probe accepts was sealed before, by a holder of one of its
      pinned keys, as an answer, for exactly the poll it sent. */
  lemma AcceptedAnswerWasSealed(steps: seq<Step>, json: Json, sha: Hash, unsealed: Option<string>, pinned: seq<Key>,
                                poll: string)
    requires IsRun(steps, json, sha) && Faithful(json) && CollisionFree(sha)
    requires Enabled(After(steps, json, sha), AcceptAnswer(unsealed, pinned, poll), json, sha)
    ensures
      var w := After(steps, json, sha);
      var answer := OpenAnswer(w.made, unsealed, pinned, poll, json, sha).value;
      exists i :: 0 <= i < |pinned| && AnswerSealed(pinned[i], answer, poll) in w.log
  {
    hide IsRun, After, OpenSigned, Proper, Signed, Faithful, CollisionFree;
    var w := After(steps, json, sha);
    var answer := OpenAnswer(w.made, unsealed, pinned, poll, json, sha).value;
    var i, g, text := OpenedIsSigned(w.made, unsealed, ANSWER_DOMAIN, pinned, json.readAnswer);
    var e := MadeIsCaused(steps, json, sha, g);
    SignedAsAnswer(e, g.key, text, answer, poll, json, sha);
  }

  /** A poll that a hub accepts was made by the probe it names, as a poll, within
      the allowed time of the hub's clock. */
  lemma AcceptedPollWasMade(steps: seq<Step>, json: Json, sha: Hash, poll: Poll, signature: Option<string>, now: int)
    requires IsRun(steps, json, sha) && Faithful(json)
    requires Enabled(After(steps, json, sha), AcceptPoll(poll, signature, now), json, sha)
    ensures PollMade(poll) in After(steps, json, sha).log && poll.probe.ProbeKey?
    ensures Distance(now, poll.timestamp) <= MAX_CLOCK_SKEW_SECS
  {
    hide IsRun, After, Signed, PollBytes, Faithful;
    var e := MadeIsCaused(steps, json, sha, Signature(poll.probe, PollBytes(poll, json), signature.value));
    SignedAsPoll(e, poll, json, sha);
  }

  // ----- Over whole runs -----------------------------------------------------

  /** Whatever was accepted was sent as what it was accepted as, for what it was
      accepted for. */
  ghost predicate Justified(e: Event, log: set<Event>) {
    match e
    case AckAccepted(pinned, ack, report) => exists i :: 0 <= i < |pinned| && AckSealed(pinned[i], ack, report) in log
    case AnswerAccepted(pinned, answer, poll) =>
      exists i :: 0 <= i < |pinned| && AnswerSealed(pinned[i], answer, poll) in log
    case PollAccepted(poll, now) => PollMade(poll) in log && Distance(now, poll.timestamp) <= MAX_CLOCK_SKEW_SECS
    case _ => true
  }

  lemma JustifiedStays(e: Event, log: set<Event>, more: set<Event>)
    requires Justified(e, log) && log <= more
    ensures Justified(e, more)
  {
    match e
    case AckAccepted(pinned, ack, report) =>
      var i :| 0 <= i < |pinned| && AckSealed(pinned[i], ack, report) in log;
      assert AckSealed(pinned[i], ack, report) in more;
    case AnswerAccepted(pinned, answer, poll) =>
      var i :| 0 <= i < |pinned| && AnswerSealed(pinned[i], answer, poll) in log;
      assert AnswerSealed(pinned[i], answer, poll) in more;
    case _ =>
  }

  /** The event a step adds to the log. */
  function Added(w: World, step: Step, json: Json, sha: Hash): Event
    requires Enabled(w, step, json, sha)
  {
    match step
    case SealAck(key, ack, report, _) => AckSealed(key, ack, report)
    case SealAnswer(key, answer, poll, _) => AnswerSealed(key, answer, poll)
    case MakePoll(poll, _) => PollMade(poll)
    case MakeReport(key, status, _) => ReportMade(key, status)
    case AcceptAck(unsealed, pinned, report) =>
      AckAccepted(pinned, OpenAck(w.made, unsealed, pinned, report, json, sha).value, report)
    case AcceptAnswer(unsealed, pinned, poll) =>
      AnswerAccepted(pinned, OpenAnswer(w.made, unsealed, pinned, poll, json, sha).value, poll)
    case AcceptPoll(poll, _, now) => PollAccepted(poll, now)
  }

  lemma NextAdds(w: World, step: Step, json: Json, sha: Hash)
    requires Enabled(w, step, json, sha)
    ensures Next(w, step, json, sha).log == w.log + {Added(w, step, json, sha)}
  {
    hide OpenAck, OpenAnswer, PollOk, PollBytes;
  }

  lemma AddedIsJustified(steps: seq<Step>, step: Step, json: Json, sha: Hash)
    requires IsRun(steps, json, sha) && Faithful(json) && CollisionFree(sha)
    requires Enabled(After(steps, json, sha), step, json, sha)
    ensures Justified(Added(After(steps, json, sha), step, json, sha), After(steps, json, sha).log)
  {
    hide OpenAck, OpenAnswer, PollOk, Faithful, CollisionFree, IsRun, After;
    match step
    case AcceptAck(unsealed, pinned, report) => AcceptedAckWasSealed(steps, json, sha, unsealed, pinned, report);
    case AcceptAnswer(unsealed, pinned, poll) => AcceptedAnswerWasSealed(steps, json, sha, unsealed, pinned, poll);
    case AcceptPoll(poll, signature, now) => AcceptedPollWasMade(steps, json, sha, poll, signature, now);
    case _ =>
  }

  /** In every run, whatever was accepted is justified by what was sent. */
  lemma {:induction false} RunIsJustified(steps: seq<Step>, json: Json, sha: Hash)
    requires IsRun(steps, json, sha) && Faithful(json) && CollisionFree(sha)
    ensures forall e :: e in After(steps, json, sha).log ==> Justified(e, After(steps, json, sha).log)
    decreases |steps|
  {
    hide Justified, Enabled, Next, Added, Faithful, CollisionFree;
    if steps != [] {
      var init, step := steps[..|steps| - 1], steps[|steps| - 1];
      var w, v := After(init, json, sha), After(steps, json, sha);
      RunIsJustified(init, json, sha);
      NextAdds(w, step, json, sha);
      AddedIsJustified(init, step, json, sha);
      hide IsRun, After;
      forall e | e in v.log ensures Justified(e, v.log) {
        JustifiedStays(e, w.log, v.log);
      }
    }
  }

  /** What a hub seals for a probe that pins its key opens as it is, exactly when
      it answers the report the probe sent. */
  lemma SealedAckOpens(made: set<Signature>, key: Key, ack: Ack, bytes: string, pinned: seq<Key>, answered: string,
                       report: string, json: Json, sha: Hash)
    requires Faithful(json) && CollisionFree(sha) && |bytes| == SIGNATURE_LEN
    requires ack.reportSha == sha(answered) && key in pinned
    requires Signature(key, "" + json.ack(ack), bytes) in made
    ensures OpenAck(made, Some(bytes + json.ack(ack)), pinned, report, json, sha)
         == if report == answered then Ok(ack) else Err(WrongReport)
  {
    var text := bytes + json.ack(ack);
    assert text[..SIGNATURE_LEN] == bytes && text[SIGNATURE_LEN..] == json.ack(ack);
    var i :| 0 <= i < |pinned| && pinned[i] == key;
    assert Verifies(made, pinned[i], "" + json.ack(ack), bytes);
  }

  /** The same of an answer that a hub seals: it opens exactly for the poll it
      answers. */
  lemma SealedAnswerOpens(made: set<Signature>, key: Key, answer: Answer, bytes: string, pinned: seq<Key>,
                          answered: string, poll: string, json: Json, sha: Hash)
    requires Faithful(json) && CollisionFree(sha) && |bytes| == SIGNATURE_LEN
    requires answer.pollSha == sha(answered) && key in pinned
    requires Signature(key, "blentinel command poll answer v1\n" + json.answer(answer), bytes) in made
    ensures OpenAnswer(made, Some(bytes + json.answer(answer)), pinned, poll, json, sha)
         == if poll == answered then Ok(answer) else Err(WrongReport)
  {
    var text := bytes + json.answer(answer);
    assert text[..SIGNATURE_LEN] == bytes && text[SIGNATURE_LEN..] == json.answer(answer);
    var i :| 0 <= i < |pinned| && pinned[i] == key;
    assert Verifies(made, pinned[i], ANSWER_DOMAIN + json.answer(answer), bytes);
  }

  /** What a probe signed as a poll is accepted exactly in the two protocol versions
      and within five minutes of the hub's clock, either way. */
  lemma MadePollIsOk(made: set<Signature>, poll: Poll, bytes: string, now: int, json: Json)
    requires Signature(poll.probe, "blentinel command poll v1\n" + json.poll(poll), bytes) in made
    ensures PollOk(made, poll, Some(bytes), now, json) <==>
              (poll.version == 9 || poll.version == 10) && -300 <= now - poll.timestamp <= 300
  {
  }

  /** And never without its probe's signature over just this poll. */
  lemma PollNeedsSignature(made: set<Signature>, poll: Poll, signature: Option<string>, now: int, json: Json)
    requires PollOk(made, poll, signature, now, json)
    ensures signature.Some?
    ensures Signature(poll.probe, "blentinel command poll v1\n" + json.poll(poll), signature.value) in made
  {
  }

  /** Why a sealed message is refused: it doesn't open, it is shorter than a
      signature, no pinned key signed it, or it can't be read. */
  lemma RefusedExactly<T>(made: set<Signature>, unsealed: Option<string>, domain: string, pinned: seq<Key>,
                          read: string -> Option<T>)
    ensures
      var r := OpenSigned(made, unsealed, domain, pinned, read);
      && (r == Err(CannotOpen) <==> unsealed == None)
      && (unsealed.Some? && |unsealed.value| < 64 ==> r == Err(Malformed))
      && (unsealed.Some? && |unsealed.value| >= 64 ==>
            var bytes, text := unsealed.value[..64], unsealed.value[64..];
            && (r == Err(BadSignature) <==>
                 forall i :: 0 <= i < |pinned| ==> Signature(pinned[i], domain + text, bytes) !in made)
            && (r == Err(Malformed) <==> r != Err(BadSignature) && read(text) == None))
      && r != Err(WrongReport)
  {
    hide Verifies;
    if unsealed.Some? && |unsealed.value| >= 64 {
      var bytes, text := unsealed.value[..64], unsealed.value[64..];
      VerifiesIs(made, domain + text, bytes);
    }
  }

  lemma VerifiesIs(made: set<Signature>, message: string, bytes: string)
    ensures forall key :: Verifies(made, key, message, bytes) <==> Signature(key, message, bytes) in made
  {
  }
}
