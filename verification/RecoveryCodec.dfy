/** A header text with the properties the recovery store relies on, so that those
    properties are known to be consistent. */
module RecoveryCodec {
  import opened Wrappers
  import opened A1Notation
  import opened AtomicFile
  import opened RecoveryStore

  // Every encoding below is self-delimiting: no bytes after it can make it read as another.

  function NatText(n: nat): Bytes {
    if n == 0 then [1] else [(20 + n % 100) as Byte] + NatText(n / 100)
  }

  lemma {:induction false} NatDelimits(a: nat, b: nat, x: Bytes, y: Bytes)
    requires NatText(a) + x == NatText(b) + y
    ensures a == b && x == y
  {
    var s, t := NatText(a) + x, NatText(b) + y;
    assert s[0] == NatText(a)[0] && t[0] == NatText(b)[0];
    if a > 0 && b > 0 {
      assert s[1..] == NatText(a / 100) + x && t[1..] == NatText(b / 100) + y;
      NatDelimits(a / 100, b / 100, x, y);
    } else {
      assert s[1..] == x && t[1..] == y;
    }
  }

  function Power100(k: nat): nat { if k == 0 then 1 else 100 * Power100(k - 1) }

  lemma {:induction false} NatIsShort(n: nat, k: nat)
    requires n < Power100(k)
    ensures |NatText(n)| <= k + 1
    decreases k
  {
    if n > 0 {
      NatIsShort(n / 100, k - 1);
    }
  }

  lemma {:induction false} NatHasNoNewline(n: nat)
    ensures NEWLINE !in NatText(n)
  {
    if n > 0 {
      NatHasNoNewline(n / 100);
    }
  }

  /** Texts that start with a tag byte are compared tag first. */
  lemma TagFirst(s: Byte, r: Bytes, x: Bytes, t: Byte, q: Bytes, y: Bytes)
    requires ([s] + r) + x == ([t] + q) + y
    ensures s == t && r + x == q + y
  {
    Regroup([s], r, x);
    Regroup([t], q, y);
    var a, b := [s] + (r + x), [t] + (q + y);
    assert a[0] == s && b[0] == t && a[1..] == r + x && b[1..] == q + y;
  }

  function IntText(n: int): Bytes { if n < 0 then [2] + NatText(-n) else [3] + NatText(n) }

  lemma IntDelimits(a: int, b: int, x: Bytes, y: Bytes)
    requires IntText(a) + x == IntText(b) + y
    ensures a == b && x == y
  {
    hide NatText;
    var m, n := if a < 0 then -a else a, if b < 0 then -b else b;
    TagFirst(if a < 0 then 2 else 3, NatText(m), x, if b < 0 then 2 else 3, NatText(n), y);
    NatDelimits(m, n, x, y);
  }

  function StringText(s: string): Bytes {
    if s == "" then [5] else [4] + NatText(s[0] as nat) + StringText(s[1..])
  }

  lemma {:induction false} StringDelimits(a: string, b: string, x: Bytes, y: Bytes)
    requires StringText(a) + x == StringText(b) + y
    ensures a == b && x == y
  {
    var s, t := StringText(a) + x, StringText(b) + y;
    assert s[0] == StringText(a)[0] && t[0] == StringText(b)[0];
    if a != "" && b != "" {
      var x', y' := StringText(a[1..]) + x, StringText(b[1..]) + y;
      assert s[1..] == NatText(a[0] as nat) + x' && t[1..] == NatText(b[0] as nat) + y';
      NatDelimits(a[0] as nat, b[0] as nat, x', y');
      StringDelimits(a[1..], b[1..], x, y);
      assert a == [a[0]] + a[1..] && b == [b[0]] + b[1..];
    } else {
      assert s[1..] == x && t[1..] == y;
    }
  }

  lemma {:induction false} StringIsShort(s: string)
    ensures |StringText(s)| <= 6 * |s| + 1 && NEWLINE !in StringText(s)
  {
    if s != "" {
      StringIsShort(s[1..]);
      assert Power100(4) == 100 * Power100(3) == 10000 * Power100(2) == 1000000 * Power100(1) == 100000000;
      NatIsShort(s[0] as nat, 4);
      NatHasNoNewline(s[0] as nat);
    }
  }

  function DeadlineText(d: Option<Moment>): Bytes { if d.None? then [6] else [7] + IntText(d.value) }

  lemma DeadlineDelimits(a: Option<Moment>, b: Option<Moment>, x: Bytes, y: Bytes)
    requires DeadlineText(a) + x == DeadlineText(b) + y
    ensures a == b && x == y
  {
    hide IntText;
    var q, r := if a.Some? then IntText(a.value) else [], if b.Some? then IntText(b.value) else [];
    assert [6] + [] == [6 as Byte];
    TagFirst(if a.Some? then 7 else 6, q, x, if b.Some? then 7 else 6, r, y);
    if a.Some? {
      IntDelimits(a.value, b.value, x, y);
    } else {
      assert [] + x == x && [] + y == y;
    }
  }

  function HeaderText(h: Header): Bytes {
    IntText(h.version) + (StringText(h.operationId) + (StringText(h.digest) + (IntText(h.size)
    + (StringText(h.createdAt) + (IntText(h.savedAt) + DeadlineText(h.expiresAt))))))
  }

  lemma Regroup(a: Bytes, b: Bytes, c: Bytes)
    ensures (a + b) + c == a + (b + c)
  {
  }

  lemma HeaderDelimits(g: Header, h: Header, x: Bytes, y: Bytes)
    requires HeaderText(g) + x == HeaderText(h) + y
    ensures g == h && x == y
  {
    var g6, h6 := DeadlineText(g.expiresAt), DeadlineText(h.expiresAt);
    var g5, h5 := IntText(g.savedAt) + g6, IntText(h.savedAt) + h6;
    var g4, h4 := StringText(g.createdAt) + g5, StringText(h.createdAt) + h5;
    var g3, h3 := IntText(g.size) + g4, IntText(h.size) + h4;
    var g2, h2 := StringText(g.digest) + g3, StringText(h.digest) + h3;
    var g1, h1 := StringText(g.operationId) + g2, StringText(h.operationId) + h2;
    Regroup(IntText(g.version), g1, x); Regroup(IntText(h.version), h1, y);
    IntDelimits(g.version, h.version, g1 + x, h1 + y);
    Regroup(StringText(g.operationId), g2, x); Regroup(StringText(h.operationId), h2, y);
    StringDelimits(g.operationId, h.operationId, g2 + x, h2 + y);
    Regroup(StringText(g.digest), g3, x); Regroup(StringText(h.digest), h3, y);
    StringDelimits(g.digest, h.digest, g3 + x, h3 + y);
    Regroup(IntText(g.size), g4, x); Regroup(IntText(h.size), h4, y);
    IntDelimits(g.size, h.size, g4 + x, h4 + y);
    Regroup(StringText(g.createdAt), g5, x); Regroup(StringText(h.createdAt), h5, y);
    StringDelimits(g.createdAt, h.createdAt, g5 + x, h5 + y);
    Regroup(IntText(g.savedAt), g6, x); Regroup(IntText(h.savedAt), h6, y);
    IntDelimits(g.savedAt, h.savedAt, g6 + x, h6 + y);
    DeadlineDelimits(g.expiresAt, h.expiresAt, x, y);
  }

  lemma IntIsShort(n: int)
    ensures NEWLINE !in IntText(n)
    ensures -CALENDAR <= n < CALENDAR ==> |IntText(n)| <= 12
  {
    var m := if n < 0 then -n else n;
    NatHasNoNewline(m);
    if -CALENDAR <= n < CALENDAR {
      assert Power100(5) == 100 * Power100(4) == 10000 * Power100(3) == 1000000 * Power100(2) == 10000000000;
      assert Power100(10) == 100 * Power100(9) == 10000 * Power100(8) == 1000000 * Power100(7)
          == 100000000 * Power100(6) == 10000000000 * Power100(5);
      NatIsShort(m, 10);
    }
  }

  lemma HeaderIsShort(h: Header)
    ensures HeaderText(h) != [] && NEWLINE !in HeaderText(h)
    ensures ShortFields(h) ==> |HeaderText(h)| <= HEADER_READ_LIMIT
  {
    IntIsShort(h.version);
    IntIsShort(h.size);
    IntIsShort(h.savedAt);
    if h.expiresAt.Some? { IntIsShort(h.expiresAt.value); }
    StringIsShort(h.operationId);
    StringIsShort(h.digest);
    StringIsShort(h.createdAt);
  }

  ghost function ReadText(data: Bytes): Option<Header> {
    if h: Header :| HeaderText(h) == data then Some(h) else None
  }

  lemma ReadTextInverts(h: Header, k: nat)
    requires k <= |HeaderText(h)|
    ensures ReadText(HeaderText(h)[..k]) == if k == |HeaderText(h)| then Some(h) else None
  {
    var data := HeaderText(h)[..k];
    forall g: Header | HeaderText(g) == data ensures g == h && k == |HeaderText(h)| {
      assert HeaderText(g) + HeaderText(h)[k..] == HeaderText(h) + [];
      HeaderDelimits(g, h, HeaderText(h)[k..], []);
    }
    assert k == |HeaderText(h)| ==> data == HeaderText(h);
  }

  /** The laws assumed of the store's codec can be met. */
  lemma LawfulCodecExists() returns (c: Codec)
    ensures Lawful(c)
    ensures forall data :: c.validate(data) == Some(Package("operation", "2026-10-27"))
  {
    var sixtyFour := seq(64, i => 'a');
    c := Codec(HeaderText, ReadText, data => sixtyFour, data => Some(Package("operation", "2026-10-27")));
    forall h: Header ensures c.decode(c.encode(h)) == Some(h) && c.encode(h) != [] && NEWLINE !in c.encode(h)
      && (ShortFields(h) ==> |c.encode(h)| <= HEADER_READ_LIMIT) {
      HeaderIsShort(h);
      ReadTextInverts(h, |HeaderText(h)|);
      assert HeaderText(h)[..|HeaderText(h)|] == HeaderText(h);
    }
    forall h, k | 0 <= k < |c.encode(h)| ensures c.decode(c.encode(h)[..k]) == None {
      ReadTextInverts(h, k);
    }
  }

  /** A run from an empty store whose total passes the configured size. */
  lemma QuotaIsPassed() returns (env: Env, ops: seq<Op>)
    ensures Lawful(env.codec) && |ops| == 1
    ensures TotalBytes(DirAfter(env, map[], ops, 1)) > env.cfg.totalMaxBytes
  {
    var c := LawfulCodecExists();
    var body: Bytes := [0];
    env := Env(c, Config(1, 1, 1, 1, 1));
    var faults := Faults(id => Cleans, WriteFate(None, n => Replaced, true));
    ops := [Save("operation", body, Unregistered, 0, faults)];
    assert faults.write.replacing(0) == Replaced;
    assert ValidId("operation") by {
      var id := "operation";
      assert id[0] == 'o' && id[8] == 'n';
      assert forall i :: 0 <= i < |id| ==> IsLetter(id[i]) && IdPart(id[i]);
    }
    HeaderPassesTheQuota(env, "operation", body, 0, faults);
  }
}
