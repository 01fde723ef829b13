/** The on-disk store of recovery packages: one folder per operation holding a header line
    and the package bytes, a first deadline that is never renewed, and a quota. */
module RecoveryStore {
  import opened Wrappers
  import opened A1Notation
  import opened AtomicFile

  const NEWLINE: Byte := 10
  const HEADER_VERSION := 1
  const HEADER_READ_LIMIT := 4096

  const CALENDAR := 1_000_000_000_000_000_000

  /** An instant inside the calendar's range. */
  type Moment = t: int | -CALENDAR <= t < CALENDAR

  /** The metadata line. `expiresAt` is the instant its text denotes, if it denotes one. */
  datatype Header = Header(
    version: int, operationId: string, digest: string, size: int,
    createdAt: string, savedAt: Moment, expiresAt: Option<Moment>)

  datatype Package = Package(operationId: string, createdAt: string)

  /** JSON text of headers, SHA-256 and package validation, as parameters. */
  datatype Codec = Codec(
    encode: Header -> Bytes,
    decode: Bytes -> Option<Header>,
    digest: Bytes -> string,
    validate: Bytes -> Option<Package>)

  /** What the store relies on: a header text is one nonempty line that decodes to its header
      and whose proper prefixes are not JSON; digests and validated packages have short fields. */
  ghost predicate Lawful(c: Codec) {
    && (forall h :: c.decode(c.encode(h)) == Some(h) && c.encode(h) != [] && NEWLINE !in c.encode(h))
    && (forall h, k :: 0 <= k < |c.encode(h)| ==> c.decode(c.encode(h)[..k]) == None)
    && (forall h :: ShortFields(h) ==> |c.encode(h)| <= HEADER_READ_LIMIT)
    && (forall data :: |c.digest(data)| == 64)
    && (forall data :: c.validate(data).Some? ==>
          |c.validate(data).value.operationId| <= 100 && |c.validate(data).value.createdAt| <= 40)
  }

  predicate ShortFields(h: Header) {
    h.version == HEADER_VERSION && 0 <= h.size < CALENDAR
    && |h.operationId| <= 100 && |h.digest| == 64 && |h.createdAt| <= 40
  }

  type Bounded = n: nat | n < CALENDAR

  datatype Config = Config(retention: nat, maxBytes: Bounded, totalMaxBytes: nat, maxOperations: nat, attempts: Positive)

  /** A folder: its material file, if present, and its modification time. */
  datatype Folder = Folder(material: Option<Bytes>, modified: Moment)

  type Directory = map<string, Folder>

  datatype Reply =
    | Material(package: Bytes, header: Header)
    | Absent | Expired | Corrupt | Conflict | Quota | Invalid | NotPersisted | Overflow | Done(removed: bool)

  /** The deadline argument of a save: none registered, unreadable, or an instant. */
  datatype Deadline = Unregistered | Unreadable | At(instant: Moment)

  // -------------------------------------------------------------------- file content

  function FirstNewline(data: Bytes): (n: nat)
    ensures n <= |data| && NEWLINE !in data[..n] && (n < |data| ==> data[n] == NEWLINE)
  {
    if data == [] || data[0] == NEWLINE then 0
    else
      var n := 1 + FirstNewline(data[1..]);
      assert data[..n] == [data[0]] + data[1..][..n - 1];
      n
  }

  function Payload(c: Codec, h: Header, body: Bytes): Bytes { c.encode(h) + [NEWLINE] + body }

  /** Splits and verifies a material file; `None` is corruption. */
  function Decode(c: Codec, data: Bytes): Option<(Header, Bytes)> {
    var n := FirstNewline(data);
    if n == 0 || n == |data| then None
    else
      var body := data[n + 1..];
      match c.decode(data[..n])
      case None => None
      case Some(h) =>
        if h.version != HEADER_VERSION || c.digest(body) != h.digest || h.size != |body| then None
        else Some((h, body))
  }

  /** The header seen by clean-up, which reads at most `HEADER_READ_LIMIT` bytes of the first line. */
  function ReadHeader(c: Codec, data: Bytes): Option<Header> {
    var n := FirstNewline(data);
    var line := if n <= HEADER_READ_LIMIT then data[..n] else data[..HEADER_READ_LIMIT];
    match c.decode(line)
    case None => None
    case Some(h) => if h.version == HEADER_VERSION then Some(h) else None
  }

  lemma PayloadLine(c: Codec, h: Header, body: Bytes)
    requires Lawful(c)
    ensures var data := Payload(c, h, body);
            FirstNewline(data) == |c.encode(h)| && data[..|c.encode(h)|] == c.encode(h) && data[|c.encode(h)| + 1..] == body
  {
    var data, n := Payload(c, h, body), |c.encode(h)|;
    assert data[..n] == c.encode(h) && data[n] == NEWLINE;
    FirstNewlineAt(data, n);
  }

  lemma {:induction false} FirstNewlineAt(data: Bytes, n: nat)
    requires n < |data| && NEWLINE !in data[..n] && data[n] == NEWLINE
    ensures FirstNewline(data) == n
  {
    if n > 0 {
      assert data[0] == data[..n][0];
      assert data[1..][..n - 1] == data[..n][1..];
      FirstNewlineAt(data[1..], n - 1);
    }
  }

  /** Reading back a written payload returns exactly its header and body. */
  lemma DecodeOfPayload(c: Codec, h: Header, body: Bytes)
    requires Lawful(c) && h.version == HEADER_VERSION && h.digest == c.digest(body) && h.size == |body|
    ensures Decode(c, Payload(c, h, body)) == Some((h, body))
  {
    PayloadLine(c, h, body);
  }

  lemma ReadHeaderOfPayload(c: Codec, h: Header, body: Bytes)
    requires Lawful(c) && h.version == HEADER_VERSION
    ensures ReadHeader(c, Payload(c, h, body)) == if |c.encode(h)| <= HEADER_READ_LIMIT then Some(h) else None
  {
    PayloadLine(c, h, body);
    var data := Payload(c, h, body);
    if |c.encode(h)| > HEADER_READ_LIMIT {
      assert data[..HEADER_READ_LIMIT] == c.encode(h)[..HEADER_READ_LIMIT];
    }
  }

  // ----------------------------------------------------------------------- identifiers

  predicate IdStart(ch: char) { IsLetter(ch) || IsDigit(ch) }

  predicate IdPart(ch: char) { IdStart(ch) || ch == '_' || ch == '.' || ch == ':' || ch == '-' }

  /** The identifier pattern; its final anchor also accepts one trailing line break. */
  predicate ValidId(id: string) {
    WellSpelled(if id != "" && id[|id| - 1] == '\n' then id[..|id| - 1] else id)
  }

  predicate WellSpelled(s: string) {
    8 <= |s| <= 100 && IdStart(s[0]) && forall i :: 0 <= i < |s| ==> IdPart(s[i])
  }

  // --------------------------------------------------------------------------- pruning

  datatype CleanFate = Cleans | FailsWhole | FailsAfterUnlink

  predicate ShouldClean(c: Codec, cfg: Config, f: Folder, now: Moment) {
    var header := if f.material.None? then None else ReadHeader(c, f.material.value);
    match header
    case None => now - f.modified >= cfg.retention
    case Some(h) => h.expiresAt.Some? && h.expiresAt.value <= now
  }

  /** What pruning leaves of one folder, given how the file system treats its removal. */
  function PruneFolder(c: Codec, cfg: Config, f: Folder, now: Moment, fate: CleanFate): Option<Folder> {
    if !ShouldClean(c, cfg, f, now) || fate == FailsWhole then Some(f)
    else if fate == FailsAfterUnlink then Some(Folder(None, now))
    else None
  }

  function Pruned(c: Codec, cfg: Config, dir: Directory, now: Moment, fates: string -> CleanFate): Directory {
    map id | id in dir && PruneFolder(c, cfg, dir[id], now, fates(id)).Some?
      :: PruneFolder(c, cfg, dir[id], now, fates(id)).value
  }

  // ----------------------------------------------------------------------------- usage

  function SizeOf(f: Folder): nat { if f.material.Some? then |f.material.value| else 0 }

  function Packages(dir: Directory): set<string> { set id | id in dir && dir[id].material.Some? }

  /** Total bytes of all material files. */
  ghost function TotalBytes(dir: Directory): nat {
    if dir == map[] then 0
    else
      var id :| id in dir;
      SizeOf(dir[id]) + TotalBytes(dir - {id})
  }

  lemma {:induction false} TotalWithout(dir: Directory, id: string)
    requires id in dir
    ensures TotalBytes(dir) == SizeOf(dir[id]) + TotalBytes(dir - {id})
    decreases |dir|
  {
    var first :| first in dir && TotalBytes(dir) == SizeOf(dir[first]) + TotalBytes(dir - {first});
    if first != id {
      TotalWithout(dir - {first}, id);
      TotalWithout(dir - {id}, first);
      assert dir - {first} - {id} == dir - {id} - {first};
    }
  }

  lemma {:induction false} TotalShrinks(small: Directory, big: Directory)
    requires small.Keys <= big.Keys
    requires forall id :: id in small ==> SizeOf(small[id]) <= SizeOf(big[id])
    ensures TotalBytes(small) <= TotalBytes(big)
    decreases |big|
  {
    if big != map[] {
      var id :| id in big;
      TotalWithout(big, id);
      if id in small { TotalWithout(small, id); } else { assert small - {id} == small; }
      TotalShrinks(small - {id}, big - {id});
    }
  }

  ghost predicate QuotaExceeded(cfg: Config, dir: Directory, incoming: nat) {
    |Packages(dir)| + 1 > cfg.maxOperations || TotalBytes(dir) + incoming > cfg.totalMaxBytes
  }

  // ------------------------------------------------------------------------ operations

  datatype Env = Env(codec: Codec, cfg: Config)

  /** What the file system does to one operation: how each clean-up and the atomic write go. */
  datatype Faults = Faults(clean: string -> CleanFate, write: WriteFate)

  /** A save onto an operation that already has a material file. */
  function SaveAgain(env: Env, existing: Bytes, body: Bytes, now: Moment): Reply {
    match Decode(env.codec, existing)
    case None => Corrupt
    case Some((h, kept)) =>
      if kept != body then Conflict
      else if h.expiresAt.None? then Corrupt
      else if h.expiresAt.value <= now then Expired
      else Material(body, h)
  }

  function NewHeader(env: Env, id: string, p: Package, body: Bytes, now: Moment, deadline: Moment): Header {
    Header(HEADER_VERSION, id, env.codec.digest(body), |body|, p.createdAt, now, Some(deadline))
  }

  /** The first save of an operation: deadline, quota with clean-up, then the write. */
  ghost function SaveFirst(env: Env, dir: Directory, id: string, p: Package, body: Bytes, deadline: Moment, now: Moment, faults: Faults)
    : (Directory, Reply)
  {
    if deadline <= now then (dir, Expired)
    else
      var room := if QuotaExceeded(env.cfg, dir, |body|) then Pruned(env.codec, env.cfg, dir, now, faults.clean) else dir;
      if QuotaExceeded(env.cfg, room, |body|) then (room, Quota)
      else
        var h := NewHeader(env, id, p, body, now, deadline);
        if Persists(faults.write, env.cfg.attempts) then (room[id := Folder(Some(Payload(env.codec, h, body)), now)], Material(body, h))
        else (room[id := Folder(None, now)], NotPersisted)
  }

  predicate Exists(dir: Directory, id: string) { id in dir && dir[id].material.Some? }

  ghost function SaveStep(env: Env, dir: Directory, id: string, body: Bytes, deadline: Deadline, now: Moment, faults: Faults)
    : (Directory, Reply)
  {
    var p := env.codec.validate(body);
    if !ValidId(id) || p.None? || p.value.operationId != id then (dir, Invalid)
    else if |body| > env.cfg.maxBytes then (dir, Quota)
    else if deadline.Unreadable? then (dir, Invalid)
    else if Exists(dir, id) then (dir, SaveAgain(env, dir[id].material.value, body, now))
    else
      match FirstDeadline(env, deadline, now)
      case None => (dir, Overflow)
      case Some(due) => SaveFirst(env, dir, id, p.value, body, due, now, faults)
  }

  /** The registered deadline, or the retention counted from now if the calendar reaches that far. */
  function FirstDeadline(env: Env, deadline: Deadline, now: Moment): Option<Moment> {
    if deadline.At? then Some(deadline.instant)
    else if now + env.cfg.retention < CALENDAR then Some(now + env.cfg.retention)
    else None
  }

  function LoadStep(env: Env, dir: Directory, id: string, now: Moment): Reply {
    if !ValidId(id) then Invalid
    else if !Exists(dir, id) then Absent
    else
      match Decode(env.codec, dir[id].material.value)
      case None => Corrupt
      case Some((h, body)) =>
        if h.operationId != id || h.expiresAt.None? then Corrupt
        else if h.expiresAt.value <= now then Expired
        else if env.codec.validate(body).None? then Invalid
        else Material(body, h)
  }

  function RemoveStep(dir: Directory, id: string, now: Moment, fate: CleanFate): (Directory, Reply) {
    if !ValidId(id) then (dir, Invalid)
    else if !Exists(dir, id) then (dir, Done(false))
    else
      match fate
      case Cleans => (dir - {id}, Done(true))
      case FailsWhole => (dir, NotPersisted)
      case FailsAfterUnlink => (dir[id := Folder(None, now)], NotPersisted)
  }

  datatype Op =
    | Save(id: string, body: Bytes, deadline: Deadline, now: Moment, faults: Faults)
    | Load(id: string, now: Moment)
    | Prune(now: Moment, faults: Faults)
    | Remove(id: string, now: Moment, fate: CleanFate)

  ghost function Step(env: Env, dir: Directory, op: Op): (Directory, Reply) {
    match op
    case Save(id, body, deadline, now, faults) => SaveStep(env, dir, id, body, deadline, now, faults)
    case Load(id, now) => (dir, LoadStep(env, dir, id, now))
    case Prune(now, faults) => (Pruned(env.codec, env.cfg, dir, now, faults.clean), Done(true))
    case Remove(id, now, fate) => RemoveStep(dir, id, now, fate)
  }

  /** The directory after the first `n` operations of a run. */
  ghost function DirAfter(env: Env, start: Directory, ops: seq<Op>, n: nat): Directory
    requires n <= |ops|
  {
    if n == 0 then start else Step(env, DirAfter(env, start, ops, n - 1), ops[n - 1]).0
  }

  ghost function ReplyOf(env: Env, start: Directory, ops: seq<Op>, n: nat): Reply
    requires n < |ops|
  {
    Step(env, DirAfter(env, start, ops, n), ops[n]).1
  }

  // ------------------------------------------------------------ the deadline is final

  predicate Concerns(op: Op, id: string) { (op.Save? || op.Load?) && op.id == id }

  /** Every save of `id` passes back the registered deadline. */
  predicate PassesBack(ops: seq<Op>, id: string, deadline: Moment) {
    forall i :: 0 <= i < |ops| && ops[i].Save? && ops[i].id == id ==> ops[i].deadline == At(deadline)
  }

  /** Whatever material `id` has, its header names this deadline. */
  predicate HoldsDeadline(env: Env, dir: Directory, id: string, deadline: Moment) {
    Exists(dir, id) && Decode(env.codec, dir[id].material.value).Some? ==>
      Decode(env.codec, dir[id].material.value).value.0.expiresAt == Some(deadline)
  }

  lemma StepKeepsDeadline(env: Env, dir: Directory, op: Op, id: string, deadline: Moment)
    requires Lawful(env.codec) && HoldsDeadline(env, dir, id, deadline)
    requires op.Save? && op.id == id ==> op.deadline == At(deadline)
    ensures HoldsDeadline(env, Step(env, dir, op).0, id, deadline)
    ensures Concerns(op, id) && Step(env, dir, op).1.Material? ==>
              Step(env, dir, op).1.header.expiresAt == Some(deadline) && op.now < deadline
  {
    hide Decode, QuotaExceeded, ShouldClean;
    if op.Save? && op.id == id && env.codec.validate(op.body).Some? {
      var h := NewHeader(env, id, env.codec.validate(op.body).value, op.body, op.now, deadline);
      DecodeOfPayload(env.codec, h, op.body);
    }
  }

  lemma {:induction false} RunKeepsDeadline(env: Env, start: Directory, ops: seq<Op>, id: string, deadline: Moment, n: nat)
    requires Lawful(env.codec) && HoldsDeadline(env, start, id, deadline) && PassesBack(ops, id, deadline) && n <= |ops|
    ensures HoldsDeadline(env, DirAfter(env, start, ops, n), id, deadline)
  {
    if n > 0 {
      RunKeepsDeadline(env, start, ops, id, deadline, n - 1);
      StepKeepsDeadline(env, DirAfter(env, start, ops, n - 1), ops[n - 1], id, deadline);
    }
  }

  /** Over any run in which the caller passes the registered deadline back, every material
      handed out for the operation carries that deadline and is handed out before it. */
  lemma DeadlineIsNeverExtended(env: Env, start: Directory, ops: seq<Op>, id: string, deadline: Moment, n: nat)
    requires Lawful(env.codec) && HoldsDeadline(env, start, id, deadline) && PassesBack(ops, id, deadline)
    requires n < |ops| && Concerns(ops[n], id)
    ensures ReplyOf(env, start, ops, n).Material? ==>
              ReplyOf(env, start, ops, n).header.expiresAt == Some(deadline) && ops[n].now < deadline
  {
    RunKeepsDeadline(env, start, ops, id, deadline, n);
    StepKeepsDeadline(env, DirAfter(env, start, ops, n), ops[n], id, deadline);
  }

  predicate HandedOutUntil(reply: Reply, due: int) {
    reply.Material? && reply.header.expiresAt.Some? && reply.header.expiresAt.value == due
  }

  /** Save, clean up at `later`, and save the same bytes again, never naming a deadline. */
  function SaveTwice(id: string, body: Bytes, now: Moment, later: Moment, faults: Faults): (ops: seq<Op>)
    ensures |ops| == 3
  {
    [Save(id, body, Unregistered, now, faults), Prune(later, faults), Save(id, body, Unregistered, later, faults)]
  }

  /** Without a registered deadline the guarantee fails: once the first package is cleaned
      up at its deadline, saving the same bytes again starts a second, later one. */
  lemma UnregisteredDeadlineRenews(env: Env, id: string, body: Bytes, now: Moment, faults: Faults)
    requires Lawful(env.codec) && ValidId(id) && env.codec.validate(body).Some?
    requires env.codec.validate(body).value.operationId == id && |body| <= env.cfg.maxBytes
    requires env.cfg.maxOperations >= 1 && |body| <= env.cfg.totalMaxBytes
    requires env.cfg.retention > 0 && now + 2 * env.cfg.retention < CALENDAR
    requires faults.clean(id) == Cleans && Persists(faults.write, env.cfg.attempts)
    ensures var ops := SaveTwice(id, body, now, now + env.cfg.retention, faults);
            && HandedOutUntil(ReplyOf(env, map[], ops, 0), now + env.cfg.retention)
            && HandedOutUntil(ReplyOf(env, map[], ops, 2), now + 2 * env.cfg.retention)
  {
    hide ValidId, Persists, Payload;
    var later: Moment := now + env.cfg.retention;
    var ops := SaveTwice(id, body, now, later, faults);
    var p := env.codec.validate(body).value;
    var h := NewHeader(env, id, p, body, now, later);
    var saved: Directory := map[id := Folder(Some(Payload(env.codec, h, body)), now)];
    EmptyHasRoom(env, |body|);
    assert DirAfter(env, map[], ops, 0) == map[];
    assert DirAfter(env, map[], ops, 1) == saved;
    ReadHeaderOfPayload(env.codec, h, body);
    assert ShortFields(h);
    assert ShouldClean(env.codec, env.cfg, saved[id], later);
    assert DirAfter(env, map[], ops, 2) == map[];
  }

  lemma EmptyHasRoom(env: Env, incoming: nat)
    requires env.cfg.maxOperations >= 1 && incoming <= env.cfg.totalMaxBytes
    ensures !QuotaExceeded(env.cfg, map[], incoming)
  {
    assert Packages(map[]) == {};
  }

  // ------------------------------------------------------- valid material is untouched

  /** A folder holding a payload as `save` writes it, still before its deadline. */
  predicate HoldsSaved(env: Env, f: Folder, h: Header, body: Bytes, now: Moment) {
    f.material == Some(Payload(env.codec, h, body)) && h.version == HEADER_VERSION && ShortFields(h)
    && h.digest == env.codec.digest(body) && h.size == |body| && h.expiresAt.Some? && now < h.expiresAt.value
  }

  lemma PruneKeepsSaved(env: Env, f: Folder, h: Header, body: Bytes, now: Moment)
    requires Lawful(env.codec) && HoldsSaved(env, f, h, body, now)
    ensures !ShouldClean(env.codec, env.cfg, f, now)
  {
    ReadHeaderOfPayload(env.codec, h, body);
  }

  /** For a loadable package of any header length: clean-up spares it exactly when the
      header line fits the clean-up's read, or the folder is younger than the retention. */
  lemma PruneSparesExactly(env: Env, f: Folder, h: Header, body: Bytes, now: Moment)
    requires Lawful(env.codec) && f.material == Some(Payload(env.codec, h, body))
    requires h.version == HEADER_VERSION && h.expiresAt.Some? && now < h.expiresAt.value
    ensures !ShouldClean(env.codec, env.cfg, f, now)
            <==> |env.codec.encode(h)| <= HEADER_READ_LIMIT || now - f.modified < env.cfg.retention
  {
    ReadHeaderOfPayload(env.codec, h, body);
  }

  /** No operation other than its own removal changes a saved package before its deadline. */
  lemma StepKeepsSaved(env: Env, dir: Directory, op: Op, id: string, h: Header, body: Bytes)
    requires Lawful(env.codec) && id in dir && HoldsSaved(env, dir[id], h, body, op.now)
    requires !(op.Remove? && op.id == id)
    ensures id in Step(env, dir, op).0 && Step(env, dir, op).0[id] == dir[id]
  {
    hide Decode, QuotaExceeded, ShouldClean, HoldsSaved;
    PruneKeepsSaved(env, dir[id], h, body, op.now);
    assert Exists(dir, id) by { assert dir[id].material.Some? by { HoldsSavedHasMaterial(env, dir[id], h, body, op.now); } }
  }

  lemma HoldsSavedHasMaterial(env: Env, f: Folder, h: Header, body: Bytes, now: Moment)
    requires HoldsSaved(env, f, h, body, now)
    ensures f.material.Some?
  {
  }

  /** Over any run that does not remove it and stays before its deadline, a saved package
      stays byte-identical, whatever is pruned, saved or rejected around it. */
  lemma {:induction false} SavedStaysIdentical(env: Env, start: Directory, ops: seq<Op>, id: string, h: Header, body: Bytes, n: nat)
    requires Lawful(env.codec) && n <= |ops| && id in start
    requires start[id].material == Some(Payload(env.codec, h, body)) && h.version == HEADER_VERSION && ShortFields(h)
    requires h.digest == env.codec.digest(body) && h.size == |body| && h.expiresAt.Some?
    requires forall i :: 0 <= i < n ==> ops[i].now < h.expiresAt.value && !(ops[i].Remove? && ops[i].id == id)
    ensures id in DirAfter(env, start, ops, n) && DirAfter(env, start, ops, n)[id] == start[id]
  {
    if n > 0 {
      SavedStaysIdentical(env, start, ops, id, h, body, n - 1);
      StepKeepsSaved(env, DirAfter(env, start, ops, n - 1), ops[n - 1], id, h, body);
    }
  }

  /** A successful first save is read back unchanged by every load before the deadline, and
      saving the same bytes again returns the first header without touching the directory. */
  lemma SaveThenLoad(env: Env, dir: Directory, id: string, body: Bytes, deadline: Deadline, now: Moment, faults: Faults,
                     later: Moment, other: Deadline, otherFaults: Faults)
    requires Lawful(env.codec) && !Exists(dir, id)
    requires SaveStep(env, dir, id, body, deadline, now, faults).1.Material?
    requires !other.Unreadable?
    ensures var (dir', reply) := SaveStep(env, dir, id, body, deadline, now, faults);
            && reply.package == body && reply.header.expiresAt.Some?
            && id in dir' && HoldsSaved(env, dir'[id], reply.header, body, now)
            && LoadStep(env, dir', id, later) == (if later < reply.header.expiresAt.value then reply else Expired)
            && SaveStep(env, dir', id, body, other, later, otherFaults)
               == (dir', if later < reply.header.expiresAt.value then reply else Expired)
  {
    hide Decode, QuotaExceeded, ShouldClean;
    var (dir', reply) := SaveStep(env, dir, id, body, deadline, now, faults);
    DecodeOfPayload(env.codec, reply.header, body);
  }

  // ----------------------------------------------------------------------------- quota

  /** The bounds every reachable directory meets. */
  ghost predicate WithinQuota(cfg: Config, dir: Directory) {
    |Packages(dir)| <= cfg.maxOperations && TotalBytes(dir) <= cfg.totalMaxBytes + HEADER_READ_LIMIT + 1
  }

  lemma FewerPackages(small: Directory, big: Directory)
    requires Packages(small) <= Packages(big)
    ensures |Packages(small)| <= |Packages(big)|
  {
    assert Packages(big) == Packages(small) + (Packages(big) - Packages(small));
  }

  lemma ShrinkKeepsQuota(cfg: Config, small: Directory, big: Directory)
    requires small.Keys <= big.Keys && WithinQuota(cfg, big)
    requires forall id :: id in small ==> small[id].material == None || small[id].material == big[id].material
    ensures WithinQuota(cfg, small)
  {
    FewerPackages(small, big);
    TotalShrinks(small, big);
  }

  lemma TotalWithOneMore(dir: Directory, id: string, f: Folder)
    requires !Exists(dir, id)
    ensures TotalBytes(dir[id := f]) == TotalBytes(dir) + SizeOf(f)
  {
    hide TotalBytes;
    var more := dir[id := f];
    TotalWithout(more, id);
    assert more - {id} == dir - {id};
    if id in dir {
      TotalWithout(dir, id);
    } else {
      assert dir - {id} == dir;
    }
  }

  lemma PackagesWithOneMore(dir: Directory, id: string, f: Folder)
    requires !Exists(dir, id)
    ensures Packages(dir[id := f]) == Packages(dir) + if f.material.Some? then {id} else {}
  {
  }

  /** Writing a file of at most `incoming` bytes plus a header line, where there was room
      for `incoming`, meets the bounds; so does leaving an empty folder behind. */
  lemma PlaceKeepsQuota(cfg: Config, room: Directory, id: string, f: Folder, incoming: nat)
    requires !Exists(room, id) && !QuotaExceeded(cfg, room, incoming)
    requires SizeOf(f) <= HEADER_READ_LIMIT + 1 + incoming
    ensures WithinQuota(cfg, room[id := f])
  {
    TotalWithOneMore(room, id, f);
    PackagesWithOneMore(room, id, f);
  }

  /** Every operation keeps the count and byte bounds; a header line may exceed the byte quota once. */
  lemma StepKeepsQuota(env: Env, dir: Directory, op: Op)
    requires Lawful(env.codec) && WithinQuota(env.cfg, dir)
    ensures WithinQuota(env.cfg, Step(env, dir, op).0)
  {
    hide TotalBytes, Packages, ShouldClean, Decode, Payload;
    match op
    case Prune(now, faults) => PrunedShrinks(env, dir, now, faults);
    case Remove(id, now, fate) =>
      ShrinkKeepsQuota(env.cfg, RemoveStep(dir, id, now, fate).0, dir);
    case Load(_, _) =>
    case Save(id, body, deadline, now, faults) =>
      PrunedShrinks(env, dir, now, faults);
      SaveKeepsQuota(env, dir, id, body, deadline, now, faults);
  }

  lemma PrunedShrinks(env: Env, dir: Directory, now: Moment, faults: Faults)
    requires WithinQuota(env.cfg, dir)
    ensures WithinQuota(env.cfg, Pruned(env.codec, env.cfg, dir, now, faults.clean))
    ensures forall id :: !Exists(dir, id) ==> !Exists(Pruned(env.codec, env.cfg, dir, now, faults.clean), id)
  {
    hide ShouldClean;
    ShrinkKeepsQuota(env.cfg, Pruned(env.codec, env.cfg, dir, now, faults.clean), dir);
  }

  lemma SaveKeepsQuota(env: Env, dir: Directory, id: string, body: Bytes, deadline: Deadline, now: Moment, faults: Faults)
    requires Lawful(env.codec) && WithinQuota(env.cfg, dir)
    requires WithinQuota(env.cfg, Pruned(env.codec, env.cfg, dir, now, faults.clean))
    requires !Exists(dir, id) ==> !Exists(Pruned(env.codec, env.cfg, dir, now, faults.clean), id)
    ensures WithinQuota(env.cfg, SaveStep(env, dir, id, body, deadline, now, faults).0)
  {
    hide QuotaExceeded, WithinQuota, Pruned, Decode, ValidId, Payload;
    var p := env.codec.validate(body);
    var first := FirstDeadline(env, deadline, now);
    if p.Some? && p.value.operationId == id && !Exists(dir, id) && first.Some? && |body| <= env.cfg.maxBytes {
      var due := first.value;
      var h := NewHeader(env, id, p.value, body, now, due);
      var room := if QuotaExceeded(env.cfg, dir, |body|) then Pruned(env.codec, env.cfg, dir, now, faults.clean) else dir;
      if !QuotaExceeded(env.cfg, room, |body|) {
        PayloadSize(env.codec, h, body);
        PlaceKeepsQuota(env.cfg, room, id, Folder(Some(Payload(env.codec, h, body)), now), |body|);
        PlaceKeepsQuota(env.cfg, room, id, Folder(None, now), |body|);
      }
    }
  }

  lemma PayloadSize(c: Codec, h: Header, body: Bytes)
    requires Lawful(c) && ShortFields(h)
    ensures |Payload(c, h, body)| <= HEADER_READ_LIMIT + 1 + |body|
  {
  }

  lemma {:induction false} RunKeepsQuota(env: Env, start: Directory, ops: seq<Op>, n: nat)
    requires Lawful(env.codec) && WithinQuota(env.cfg, start) && n <= |ops|
    ensures WithinQuota(env.cfg, DirAfter(env, start, ops, n))
  {
    if n > 0 {
      RunKeepsQuota(env, start, ops, n - 1);
      StepKeepsQuota(env, DirAfter(env, start, ops, n - 1), ops[n - 1]);
    }
  }

  /** The bound is not the configured size: a body of just that size is saved into an empty
      store, and its header line comes on top. */
  lemma HeaderPassesTheQuota(env: Env, id: string, body: Bytes, now: Moment, faults: Faults)
    requires Lawful(env.codec) && ValidId(id) && env.codec.validate(body).Some?
    requires env.codec.validate(body).value.operationId == id && env.cfg.maxOperations >= 1
    requires |body| == env.cfg.totalMaxBytes && |body| <= env.cfg.maxBytes
    requires 0 < env.cfg.retention && now + env.cfg.retention < CALENDAR && Persists(faults.write, env.cfg.attempts)
    ensures TotalBytes(DirAfter(env, map[], [Save(id, body, Unregistered, now, faults)], 1)) > env.cfg.totalMaxBytes
  {
    hide ValidId, Persists;
    var h := NewHeader(env, id, env.codec.validate(body).value, body, now, now + env.cfg.retention);
    var saved: Directory := map[id := Folder(Some(Payload(env.codec, h, body)), now)];
    EmptyHasRoom(env, |body|);
    assert DirAfter(env, map[], [Save(id, body, Unregistered, now, faults)], 0) == map[];
    assert DirAfter(env, map[], [Save(id, body, Unregistered, now, faults)], 1) == saved;
    TotalWithout(saved, id);
  }

  /** Loading hands a package out exactly when the file is a header line and that package, the
      header is current, names the operation, its digest and size are the package's, its
      deadline is ahead, and the package is valid. */
  lemma LoadsExactlyWhatStands(env: Env, dir: Directory, id: string, now: Moment, body: Bytes, h: Header)
    requires Lawful(env.codec)
    ensures Exists(dir, id) && dir[id].material.value == Payload(env.codec, h, body) ==>
              (LoadStep(env, dir, id, now) == Material(body, h)
               <==> ValidId(id) && Intact(env.codec, h, body) && h.operationId == id
                    && h.expiresAt.Some? && now < h.expiresAt.value && env.codec.validate(body).Some?)
    ensures LoadStep(env, dir, id, now) == Material(body, h) ==>
              Intact(env.codec, h, body) && h.operationId == id && h.expiresAt.Some? && now < h.expiresAt.value
              && exists line :: dir[id].material.value == line + [NEWLINE] + body && env.codec.decode(line) == Some(h)
  {
    hide ValidId, FirstNewline;
    PayloadLine(env.codec, h, body);
    if LoadStep(env, dir, id, now) == Material(body, h) {
      var data := dir[id].material.value;
      assert data == data[..FirstNewline(data)] + [NEWLINE] + body;
    }
  }

  predicate Intact(c: Codec, h: Header, body: Bytes) {
    h.version == HEADER_VERSION && h.digest == c.digest(body) && h.size == |body|
  }

  // --------------------------------------------------------------- the store in place

  function Restrict(dir: Directory, ids: set<string>): Directory { map k | k in dir && k in ids :: dir[k] }

  lemma UsageStep(dir: Directory, done: set<string>, id: string)
    requires id in dir && id !in done
    ensures var seen := Restrict(dir, done);
            var more := Restrict(dir, done + {id});
            TotalBytes(more) == TotalBytes(seen) + SizeOf(dir[id])
            && |Packages(more)| == |Packages(seen)| + (if dir[id].material.Some? then 1 else 0)
  {
    var seen, more := Restrict(dir, done), Restrict(dir, done + {id});
    assert more == seen[id := dir[id]];
    TotalWithOneMore(seen, id, dir[id]);
    PackagesWithOneMore(seen, id, dir[id]);
  }

  /** The directory when every folder outside `todo` has been visited. */
  function PrunedOutside(env: Env, dir: Directory, now: Moment, faults: Faults, todo: set<string>): Directory {
    map id | id in dir && (id in todo || PruneFolder(env.codec, env.cfg, dir[id], now, faults.clean(id)).Some?)
      :: if id in todo then dir[id] else PruneFolder(env.codec, env.cfg, dir[id], now, faults.clean(id)).value
  }

  /** Visiting one folder replaces or removes just that folder. */
  lemma PruneStep(env: Env, dir: Directory, now: Moment, faults: Faults, todo: set<string>, id: string)
    requires id in todo && todo <= dir.Keys
    ensures var here := PrunedOutside(env, dir, now, faults, todo);
            id in here && here[id] == dir[id]
            && PrunedOutside(env, dir, now, faults, todo - {id})
               == if !ShouldClean(env.codec, env.cfg, dir[id], now) || faults.clean(id) == FailsWhole then here
                  else if faults.clean(id) == FailsAfterUnlink then here[id := Folder(None, now)]
                  else here - {id}
  {
  }

  lemma PruneEnds(env: Env, dir: Directory, now: Moment, faults: Faults)
    ensures PrunedOutside(env, dir, now, faults, dir.Keys) == dir
    ensures PrunedOutside(env, dir, now, faults, {}) == Pruned(env.codec, env.cfg, dir, now, faults.clean)
  {
  }

  /** The header is there but its deadline cannot be read. */
  predicate Undated(c: Codec, f: Folder) {
    f.material.Some? && ReadHeader(c, f.material.value).Some? && ReadHeader(c, f.material.value).value.expiresAt.None?
  }

  lemma UndatedIsKept(env: Env, f: Folder, now: Moment)
    ensures Undated(env.codec, f) ==> !ShouldClean(env.codec, env.cfg, f, now)
  {
  }

  function Unconfirmed(env: Env, dir: Directory): set<string> { set id | id in dir && Undated(env.codec, dir[id]) }

  function FailedCleanups(env: Env, dir: Directory, now: Moment, faults: Faults): set<string> {
    set id | id in dir && ShouldClean(env.codec, env.cfg, dir[id], now) && !faults.clean(id).Cleans?
  }

  lemma AllInDirectory(env: Env, dir: Directory, now: Moment, faults: Faults)
    ensures FailedCleanups(env, dir, now, faults) - dir.Keys == {} && Unconfirmed(env, dir) - dir.Keys == {}
  {
  }

  lemma OneMore(all: set<string>, todo: set<string>, id: string)
    requires id in todo
    ensures |all - (todo - {id})| == |all - todo| + (if id in all then 1 else 0)
  {
    assert all - (todo - {id}) == (all - todo) + (if id in all then {id} else {});
  }

  /** Visiting one folder moves at most one of the three counts, by one. */
  lemma CountsStep(env: Env, dir: Directory, now: Moment, faults: Faults, todo: set<string>, id: string)
    requires id in todo && todo <= dir.Keys
    ensures var due := ShouldClean(env.codec, env.cfg, dir[id], now);
            && |FailedCleanups(env, dir, now, faults) - (todo - {id})|
               == |FailedCleanups(env, dir, now, faults) - todo| + (if due && !faults.clean(id).Cleans? then 1 else 0)
            && |Unconfirmed(env, dir) - (todo - {id})|
               == |Unconfirmed(env, dir) - todo| + (if Undated(env.codec, dir[id]) then 1 else 0)
  {
    hide ShouldClean, Undated;
    OneMore(FailedCleanups(env, dir, now, faults), todo, id);
    OneMore(Unconfirmed(env, dir), todo, id);
  }

  lemma RemovedStep(dir: Directory, here: Directory, id: string)
    requires id in here && here.Keys <= dir.Keys
    ensures |dir.Keys - (here - {id}).Keys| == |dir.Keys - here.Keys| + 1
  {
    assert dir.Keys - (here - {id}).Keys == (dir.Keys - here.Keys) + {id};
  }

  class Store {
    const env: Env
    var dir: Directory

    constructor (env: Env)
      ensures this.env == env && dir == map[]
    {
      this.env, dir := env, map[];
    }

    /** Counts the packages and adds up their file sizes, folder by folder. */
    method Usage() returns (count: nat, total: nat)
      ensures count == |Packages(dir)| && total == TotalBytes(dir)
    {
      hide TotalBytes, Packages;
      count, total := 0, 0;
      var todo := dir.Keys;
      ghost var done: set<string> := {};
      NothingUsed(dir);
      while todo != {}
        invariant todo !! done && todo + done == dir.Keys
        invariant count == |Packages(Restrict(dir, done))| && total == TotalBytes(Restrict(dir, done))
        decreases todo
      {
        var id :| id in todo;
        UsageStep(dir, done, id);
        if dir[id].material.Some? {
          count, total := count + 1, total + |dir[id].material.value|;
        }
        todo, done := todo - {id}, done + {id};
      }
      assert Restrict(dir, done) == dir;
    }

    method Roomy(incoming: nat) returns (roomy: bool)
      ensures roomy <==> !QuotaExceeded(env.cfg, dir, incoming)
    {
      var count, used := Usage();
      roomy := !(count + 1 > env.cfg.maxOperations || used + incoming > env.cfg.totalMaxBytes);
    }

    /** Cleans every folder on its own, and counts those removed, those whose removal failed
        and those whose deadline cannot be read. */
    method PruneExpired(now: Moment, faults: Faults) returns (removed: nat, failed: nat, unconfirmed: nat)
      modifies this
      ensures dir == Pruned(env.codec, env.cfg, old(dir), now, faults.clean)
      ensures removed == |old(dir).Keys - dir.Keys|
      ensures failed == |FailedCleanups(env, old(dir), now, faults)|
      ensures unconfirmed == |Unconfirmed(env, old(dir))|
    {
      hide PruneFolder, ShouldClean, PrunedOutside, Pruned, Undated, FailedCleanups, Unconfirmed;
      removed, failed, unconfirmed := 0, 0, 0;
      var todo := dir.Keys;
      ghost var before := dir;
      PruneEnds(env, before, now, faults);
      AllInDirectory(env, before, now, faults);
      while todo != {}
        invariant todo <= before.Keys && dir == PrunedOutside(env, before, now, faults, todo)
        invariant dir.Keys <= before.Keys && removed == |before.Keys - dir.Keys|
        invariant failed == |FailedCleanups(env, before, now, faults) - todo|
        invariant unconfirmed == |Unconfirmed(env, before) - todo|
        decreases todo
      {
        var id :| id in todo;
        PruneStep(env, before, now, faults, todo, id);
        CountsStep(env, before, now, faults, todo, id);
        RemovedStep(before, dir, id);
        var r, f, u := CleanFolder(id, now, faults);
        removed, failed, unconfirmed, todo := removed + r, failed + f, unconfirmed + u, todo - {id};
      }
    }

    /** Cleans one folder, and says which count it adds to. */
    method CleanFolder(id: string, now: Moment, faults: Faults) returns (removed: nat, failed: nat, unconfirmed: nat)
      requires id in dir
      modifies this
      ensures var due := ShouldClean(env.codec, env.cfg, old(dir)[id], now);
              && dir == (if !due || faults.clean(id) == FailsWhole then old(dir)
                         else if faults.clean(id) == FailsAfterUnlink then old(dir)[id := Folder(None, now)]
                         else old(dir) - {id})
              && removed == (if due && faults.clean(id).Cleans? then 1 else 0)
              && failed == (if due && !faults.clean(id).Cleans? then 1 else 0)
              && unconfirmed == (if Undated(env.codec, old(dir)[id]) then 1 else 0)
    {
      hide ShouldClean, Undated;
      UndatedIsKept(env, dir[id], now);
      if Undated(env.codec, dir[id]) { return 0, 0, 1; }
      if !ShouldClean(env.codec, env.cfg, dir[id], now) { return 0, 0, 0; }
      match faults.clean(id)
      case Cleans =>
        dir := dir - {id};
        return 1, 0, 0;
      case FailsWhole =>
        return 0, 1, 0;
      case FailsAfterUnlink =>
        dir := dir[id := Folder(None, now)];
        return 0, 1, 0;
    }

    /** Writes the first package of an operation through the atomic file write. */
    method WriteFirst(id: string, body: Bytes, h: Header, now: Moment, faults: Faults) returns (reply: Reply)
      modifies this
      ensures dir == old(dir)[id := Folder(if Persists(faults.write, env.cfg.attempts)
                                           then Some(Payload(env.codec, h, body)) else None, now)]
      ensures reply == if Persists(faults.write, env.cfg.attempts) then Material(body, h) else NotPersisted
    {
      var file := new FilePair(File.Missing);
      var written := file.AtomicWrite(Payload(env.codec, h, body), env.cfg.attempts, faults.write);
      dir := dir[id := Folder(if file.target.Holding? then Some(file.target.content) else None, now)];
      reply := if written then Material(body, h) else NotPersisted;
    }

    /** Saves a package, idempotently, under its first deadline. */
    method Save(id: string, body: Bytes, deadline: Deadline, now: Moment, faults: Faults) returns (reply: Reply)
      modifies this
      ensures (dir, reply) == SaveStep(env, old(dir), id, body, deadline, now, faults)
    {
      hide QuotaExceeded, Pruned, SaveAgain, Persists, Payload;
      var p := env.codec.validate(body);
      if !ValidId(id) || p.None? || p.value.operationId != id { return Invalid; }
      if |body| > env.cfg.maxBytes { return Quota; }
      if deadline.Unreadable? { return Invalid; }
      if Exists(dir, id) {
        return SaveAgain(env, dir[id].material.value, body, now);
      }
      var first := FirstDeadline(env, deadline, now);
      if first.None? { return Overflow; }
      if first.value <= now { return Expired; }
      var roomy := Roomy(|body|);
      if !roomy {
        var _, _, _ := PruneExpired(now, faults);
        roomy := Roomy(|body|);
        if !roomy { return Quota; }
      }
      reply := WriteFirst(id, body, NewHeader(env, id, p.value, body, now, first.value), now, faults);
    }

    method Load(id: string, now: Moment) returns (reply: Reply)
      ensures reply == LoadStep(env, dir, id, now)
    {
      if !ValidId(id) { return Invalid; }
      if !Exists(dir, id) { return Absent; }
      var decoded := Decode(env.codec, dir[id].material.value);
      if decoded.None? { return Corrupt; }
      var (h, body) := decoded.value;
      if h.operationId != id || h.expiresAt.None? { return Corrupt; }
      if h.expiresAt.value <= now { return Expired; }
      if env.codec.validate(body).None? { return Invalid; }
      reply := Material(body, h);
    }

    method Remove(id: string, now: Moment, fate: CleanFate) returns (reply: Reply)
      modifies this
      ensures (dir, reply) == RemoveStep(old(dir), id, now, fate)
    {
      if !ValidId(id) { return Invalid; }
      if !Exists(dir, id) { return Done(false); }
      if fate.FailsWhole? { return NotPersisted; }
      dir := dir[id := Folder(None, now)];
      if fate.FailsAfterUnlink? { return NotPersisted; }
      dir := dir - {id};
      assert dir == old(dir) - {id};
      reply := Done(true);
    }
  }

  lemma NothingUsed(dir: Directory)
    ensures TotalBytes(Restrict(dir, {})) == 0 && Packages(Restrict(dir, {})) == {}
  {
    assert Restrict(dir, {}).Keys == {};
  }
}
