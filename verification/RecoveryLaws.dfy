/** What the recovery store's operations mean in terms of the bytes on disk: when a file stands
    for a package, what a save or a load hands out, and which folders clean-up takes. */
module RecoveryLaws {
  import opened Wrappers
  import opened AtomicFile
  import opened RecoveryStore

  /** The file is a header line and the package, and the header vouches for the package. */
  ghost predicate Stands(c: Codec, data: Bytes, h: Header, body: Bytes) {
    exists line :: StandsBehind(c, data, line, h, body)
  }

  predicate StandsBehind(c: Codec, data: Bytes, line: Bytes, h: Header, body: Bytes) {
    && line != [] && NEWLINE !in line && data == line + [NEWLINE] + body && c.decode(line) == Some(h)
    && h.version == HEADER_VERSION && h.digest == c.digest(body) && h.size == |body|
  }

  /** Reading a file finds exactly the package that stands in it. */
  lemma DecodeExactly(c: Codec, data: Bytes, h: Header, body: Bytes)
    ensures Decode(c, data) == Some((h, body)) <==> Stands(c, data, h, body)
  {
    hide FirstNewline;
    if Decode(c, data) == Some((h, body)) {
      var n := FirstNewline(data);
      assert data == data[..n] + [NEWLINE] + data[n + 1..];
      assert StandsBehind(c, data, data[..n], h, body);
    }
    if Stands(c, data, h, body) {
      var line :| StandsBehind(c, data, line, h, body);
      assert data[..|line|] == line && data[|line|] == NEWLINE && data[|line| + 1..] == body;
      FirstNewlineAt(data, |line|);
    }
  }

  lemma NothingStands(c: Codec, data: Bytes)
    ensures Decode(c, data).None? <==> forall h, body :: !Stands(c, data, h, body)
  {
    hide Decode, Stands;
    forall h, body ensures Decode(c, data) == Some((h, body)) <==> Stands(c, data, h, body) {
      DecodeExactly(c, data, h, body);
    }
    if Decode(c, data).Some? {
      var (h, body) := Decode(c, data).value;
      assert Stands(c, data, h, body);
    }
  }

  /** Whatever the directory, a save hands out its own bytes, and only when these very bytes
      stand in the operation's file behind the returned header, before their deadline. */
  lemma SaveHandsOutWhatStands(env: Env, dir: Directory, id: string, body: Bytes, deadline: Deadline, now: Moment, faults: Faults)
    requires Lawful(env.codec)
    ensures var (dir', reply) := SaveStep(env, dir, id, body, deadline, now, faults);
            reply.Material? ==>
              && reply.package == body && Exists(dir', id) && Stands(env.codec, dir'[id].material.value, reply.header, body)
              && reply.header.expiresAt.Some? && now < reply.header.expiresAt.value
  {
    hide Decode, QuotaExceeded, Pruned, ValidId, Persists, Stands, Payload;
    if Exists(dir, id) {
      match Decode(env.codec, dir[id].material.value)
      case None =>
      case Some((h, kept)) => DecodeExactly(env.codec, dir[id].material.value, h, kept);
    } else if env.codec.validate(body).Some? && FirstDeadline(env, deadline, now).Some? {
      var h := NewHeader(env, id, env.codec.validate(body).value, body, now, FirstDeadline(env, deadline, now).value);
      DecodeOfPayload(env.codec, h, body);
      DecodeExactly(env.codec, Payload(env.codec, h, body), h, body);
    }
  }

  /** A well-formed request: a valid identifier, a valid package for it, within the size limit,
      and a deadline that can be read if one is given. */
  predicate WellFormed(env: Env, id: string, body: Bytes, deadline: Deadline) {
    && ValidId(id) && env.codec.validate(body).Some? && env.codec.validate(body).value.operationId == id
    && |body| <= env.cfg.maxBytes && !deadline.Unreadable?
  }

  lemma IllFormedSave(env: Env, dir: Directory, id: string, body: Bytes, deadline: Deadline, now: Moment, faults: Faults)
    ensures !WellFormed(env, id, body, deadline) ==>
              var (dir', reply) := SaveStep(env, dir, id, body, deadline, now, faults);
              dir' == dir && (reply == Invalid || reply == Quota)
              && (reply == Quota <==> ValidId(id) && env.codec.validate(body).Some? && env.codec.validate(body).value.operationId == id
                                      && |body| > env.cfg.maxBytes)
  {
    hide ValidId, QuotaExceeded, Pruned, Persists;
  }

  /** Saving onto an operation that has a file never changes anything. Where other bytes stand
      it is a conflict, where the same bytes stand it is their own material until they expire,
      and where nothing stands the file is corrupt. */
  lemma SaveOverAFile(env: Env, dir: Directory, id: string, body: Bytes, deadline: Deadline, now: Moment, faults: Faults, h: Header, kept: Bytes)
    requires WellFormed(env, id, body, deadline) && Exists(dir, id)
    ensures SaveStep(env, dir, id, body, deadline, now, faults).0 == dir
    ensures Stands(env.codec, dir[id].material.value, h, kept) ==>
              SaveStep(env, dir, id, body, deadline, now, faults).1
              == if kept != body then Conflict
                 else if h.expiresAt.None? then Corrupt
                 else if h.expiresAt.value <= now then Expired
                 else Material(body, h)
    ensures (forall g, other :: !Stands(env.codec, dir[id].material.value, g, other)) ==>
              SaveStep(env, dir, id, body, deadline, now, faults).1 == Corrupt
  {
    DecodeExactly(env.codec, dir[id].material.value, h, kept);
    NothingStands(env.codec, dir[id].material.value);
    hide Decode, QuotaExceeded, Pruned, ValidId, Persists, Stands;
  }

  /** The deadline of a first save: the registered one, or the retention counted from now. */
  predicate Due(env: Env, deadline: Deadline, now: Moment, due: int) {
    match deadline
    case At(instant) => due == instant
    case _ => due == now + env.cfg.retention
  }

  /** Room for one more package of this size. */
  ghost predicate Room(env: Env, dir: Directory, body: Bytes) {
    |Packages(dir)| + 1 <= env.cfg.maxOperations && TotalBytes(dir) + |body| <= env.cfg.totalMaxBytes
  }

  /** A first save hands out material exactly when its deadline lies ahead inside the calendar,
      there is room, if need be after clean-up, and the write persists. The header then carries
      the operation, the digest and size of the bytes, the package's own creation time, the time
      of saving and the deadline, and the directory gains exactly this file. */
  lemma FirstSaveExactly(env: Env, dir: Directory, id: string, body: Bytes, deadline: Deadline, now: Moment, faults: Faults, due: int)
    requires WellFormed(env, id, body, deadline) && !Exists(dir, id) && Due(env, deadline, now, due)
    ensures var cleaned := Pruned(env.codec, env.cfg, dir, now, faults.clean);
            var room := if Room(env, dir, body) then dir else cleaned;
            var (dir', reply) := SaveStep(env, dir, id, body, deadline, now, faults);
            && (due >= CALENDAR ==> dir' == dir && reply == Overflow)
            && (due <= now ==> dir' == dir && reply == Expired)
            && (now < due < CALENDAR && !Room(env, room, body) ==> dir' == room && reply == Quota)
            && (now < due < CALENDAR && Room(env, room, body) ==>
                  var h := Header(HEADER_VERSION, id, env.codec.digest(body), |body|, env.codec.validate(body).value.createdAt, now, Some(due));
                  if Persists(faults.write, env.cfg.attempts)
                  then dir' == room[id := Folder(Some(env.codec.encode(h) + [NEWLINE] + body), now)] && reply == Material(body, h)
                  else dir' == room[id := Folder(None, now)] && reply == NotPersisted)
  {
    hide ValidId, Pruned, Persists, TotalBytes, Packages;
  }

  /** Loading, refusal by refusal: no file, a file in which nothing stands or which stands for
      another operation or without a readable deadline, a deadline that has come, and bytes
      that are no valid package. */
  lemma LoadExactly(env: Env, dir: Directory, id: string, now: Moment, h: Header, body: Bytes)
    requires ValidId(id)
    ensures !Exists(dir, id) ==> LoadStep(env, dir, id, now) == Absent
    ensures Exists(dir, id) && Stands(env.codec, dir[id].material.value, h, body) ==>
              LoadStep(env, dir, id, now)
              == if h.operationId != id || h.expiresAt.None? then Corrupt
                 else if h.expiresAt.value <= now then Expired
                 else if env.codec.validate(body).None? then Invalid
                 else Material(body, h)
    ensures Exists(dir, id) && (forall g, other :: !Stands(env.codec, dir[id].material.value, g, other)) ==>
              LoadStep(env, dir, id, now) == Corrupt
  {
    if Exists(dir, id) {
      DecodeExactly(env.codec, dir[id].material.value, h, body);
      NothingStands(env.codec, dir[id].material.value);
    }
    hide Decode, ValidId, Stands;
  }

  // ---------------------------------------------------------------------- clean-up

  /** The part of a file clean-up reads: its first line, up to the reading limit. */
  predicate LineRead(data: Bytes, line: Bytes) {
    && line <= data && NEWLINE !in line && |line| <= HEADER_READ_LIMIT
    && (|line| == HEADER_READ_LIMIT || |line| == |data| || data[|line|] == NEWLINE)
  }

  lemma HeaderReadExactly(c: Codec, data: Bytes, line: Bytes)
    requires LineRead(data, line)
    ensures ReadHeader(c, data)
            == match c.decode(line)
               case None => None
               case Some(h) => if h.version == HEADER_VERSION then Some(h) else None
  {
    hide FirstNewline;
    var n := FirstNewline(data);
    if |line| < n {
      assert data[|line|] == data[..n][|line|];
    }
    assert line == data[..|line|];
  }

  /** Clean-up takes a folder exactly when its header is readable and its deadline has come, or
      no header is readable and the folder is at least a retention old. A header without a
      readable deadline is never taken. */
  lemma CleanUpExactly(env: Env, f: Folder, now: Moment, line: Bytes)
    requires f.material.Some? ==> LineRead(f.material.value, line)
    ensures var header := if f.material.None? then None else env.codec.decode(line);
            ShouldClean(env.codec, env.cfg, f, now)
            <==> if header.Some? && header.value.version == HEADER_VERSION
                 then header.value.expiresAt.Some? && header.value.expiresAt.value <= now
                 else now - f.modified >= env.cfg.retention
  {
    if f.material.Some? { HeaderReadExactly(env.codec, f.material.value, line); }
    hide ReadHeader;
  }

  /** A clean-up removes just the folders it takes whose removal works, empties those whose
      removal fails half-way, and leaves every other folder as it is. */
  lemma PrunedExactly(env: Env, dir: Directory, now: Moment, fates: string -> CleanFate, id: string)
    ensures var after := Pruned(env.codec, env.cfg, dir, now, fates);
            var taken := id in dir && ShouldClean(env.codec, env.cfg, dir[id], now);
            && (id in after <==> id in dir && !(taken && fates(id) == Cleans))
            && (id in after ==> after[id] == if taken && fates(id) == FailsAfterUnlink then Folder(None, now) else dir[id])
  {
    hide ShouldClean;
  }

  // -------------------------------------------------------------------- identifiers

  predicate Alphanumeric(c: char) { '0' <= c <= '9' || 'A' <= c <= 'Z' || 'a' <= c <= 'z' }

  predicate IsIdentifier(core: string) {
    && 8 <= |core| <= 100 && Alphanumeric(core[0])
    && forall i :: 0 <= i < |core| ==> Alphanumeric(core[i]) || core[i] == '_' || core[i] == '.' || core[i] == ':' || core[i] == '-'
  }

  lemma CoreIsIdentifier(s: string)
    ensures WellSpelled(s) <==> IsIdentifier(s)
  {
    forall i | 0 <= i < |s|
      ensures IdPart(s[i]) <==> Alphanumeric(s[i]) || s[i] == '_' || s[i] == '.' || s[i] == ':' || s[i] == '-' {}
  }

  predicate WithLineBreak(id: string, core: string) { id == core + "\n" && IsIdentifier(core) }

  /** A valid identifier is an alphanumeric character followed by 7 to 99 alphanumeric ones,
      underscores, dots, colons and hyphens, and possibly one line break. */
  lemma IdentifiersExactly(id: string)
    ensures ValidId(id) <==> IsIdentifier(id) || exists core :: WithLineBreak(id, core)
  {
    hide IsIdentifier, WellSpelled;
    if id != "" && id[|id| - 1] == '\n' {
      var core := id[..|id| - 1];
      CoreIsIdentifier(core);
      assert id == core + "\n";
      BreakIsNoIdentifier(id);
      assert IsIdentifier(core) ==> WithLineBreak(id, core);
      forall other | WithLineBreak(id, other) ensures other == core { assert other == id[..|id| - 1]; }
    } else {
      CoreIsIdentifier(id);
      forall other ensures !WithLineBreak(id, other) { assert (other + "\n")[|other|] == '\n'; }
    }
  }

  lemma BreakIsNoIdentifier(id: string)
    requires id != "" && id[|id| - 1] == '\n'
    ensures !IsIdentifier(id)
  {
    assert !Alphanumeric(id[|id| - 1]);
  }
}
