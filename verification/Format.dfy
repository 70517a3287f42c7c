/**
 The canonical byte encodings behind the credential AAD and the ledger MACs.
 */
module Format {

  import opened Words
  import opened Digits
  import opened ByteOrder

  type Str = bytes

  datatype Identity = Identity(registryId: Str, rlnIdentifier: Str, commitment: Str, submittedAt: u64)

  datatype AllocRow = AllocRow(app: Str, epoch: u64, used: u64)

  /** A `BTreeMap<String, [u8; 32]>` as its iteration order lists it. */
  datatype MacEntry = MacEntry(hash: Str, mac: bytes)

  const U32_MAX: nat := 0xFFFF_FFFF

  /** "rln-sealed/v1/" and the three purposes that follow it. */
  const PREFIX: bytes := [114, 108, 110, 45, 115, 101, 97, 108, 101, 100, 47, 118, 49, 47]
  const CREDENTIAL: bytes := PREFIX + [99, 114, 101, 100, 101, 110, 116, 105, 97, 108]
  const SECTION: bytes := PREFIX + [115, 101, 99, 116, 105, 111, 110]
  const ROOT: bytes := PREFIX + [114, 111, 111, 116]

  /** The bytes of a text of plain characters. */
  function Ascii(s: string): (b: bytes)
    ensures |b| == |s|
  {
    seq(|s|, i requires 0 <= i < |s| => (s[i] as nat) % 256)
  }

  /** All purposes start alike. */
  lemma PrefixIsNamed()
    ensures PREFIX == Ascii("rln-sealed/v1/")
  {
  }

  lemma PurposesAreNamed()
    ensures CREDENTIAL == Ascii("rln-sealed/v1/") + Ascii("credential")
    ensures SECTION == Ascii("rln-sealed/v1/") + Ascii("section")
    ensures ROOT == Ascii("rln-sealed/v1/") + Ascii("root")
  {
    PrefixIsNamed();
    assert Ascii("credential") == [99, 114, 101, 100, 101, 110, 116, 105, 97, 108];
    assert Ascii("section") == [115, 101, 99, 116, 105, 111, 110];
    assert Ascii("root") == [114, 111, 111, 116];
  }

  function Word(n: nat, width: nat): (s: bytes)
    ensures |s| == width
  {
    Bytes(n, width)
  }

  /** A length, cast to 32 bits, then the string. */
  function PutStr(s: Str): bytes {
    Word(|s|, 4) + s
  }

  // ------------------------------------------------------------- the payloads

  function Credential(hash: Str, id: Identity, uuid: bytes): bytes {
    CREDENTIAL + (PutStr(hash) + (PutStr(id.registryId) + (PutStr(id.rlnIdentifier) + (PutStr(id.commitment)
      + (Word(id.submittedAt, 8) + uuid)))))
  }

  predicate KeyLess(a: AllocRow, b: AllocRow) {
    Less(a.app, b.app) || (a.app == b.app && a.epoch < b.epoch)
  }

  /** Insert before the first row that is not smaller, so that equal keys keep their order. */
  function InsertRow(r: AllocRow, rows: seq<AllocRow>): seq<AllocRow> {
    if rows == [] || !KeyLess(rows[0], r) then [r] + rows else [rows[0]] + InsertRow(r, rows[1..])
  }

  function SortRows(rows: seq<AllocRow>): seq<AllocRow> {
    if rows == [] then [] else InsertRow(rows[0], SortRows(rows[1..]))
  }

  function PutRow(r: AllocRow): bytes {
    PutStr(r.app) + (Word(r.epoch, 8) + Word(r.used, 8))
  }

  function PutRows(rows: seq<AllocRow>): bytes {
    if rows == [] then [] else PutRow(rows[0]) + PutRows(rows[1..])
  }

  function Section(hash: Str, size: u64, floor: u64, rows: seq<AllocRow>, uuid: bytes): bytes {
    SECTION + (PutStr(hash) + (uuid + (Word(size, 8) + (Word(floor, 8)
      + (Word(|rows|, 4) + PutRows(SortRows(rows)))))))
  }

  function PutMac(e: MacEntry): bytes {
    PutStr(e.hash) + e.mac
  }

  function PutMacs(macs: seq<MacEntry>): bytes {
    if macs == [] then [] else PutMac(macs[0]) + PutMacs(macs[1..])
  }

  function Root(macs: seq<MacEntry>, uuid: bytes): bytes {
    ROOT + (uuid + (Word(|macs|, 4) + PutMacs(macs)))
  }

  // ----------------------------------------------------- the buffers, as built

  method CredentialAad(hash: Str, id: Identity, uuid: bytes) returns (buf: bytes)
    ensures buf == Credential(hash, id, uuid)
  {
    buf := CREDENTIAL;
    buf := buf + PutStr(hash);
    buf := buf + PutStr(id.registryId);
    buf := buf + PutStr(id.rlnIdentifier);
    buf := buf + PutStr(id.commitment);
    buf := buf + Word(id.submittedAt, 8);
    buf := buf + uuid;
  }

  method SectionMacPayload(hash: Str, size: u64, floor: u64, rows: seq<AllocRow>, uuid: bytes) returns (buf: bytes)
    ensures buf == Section(hash, size, floor, rows, uuid)
  {
    var sorted := SortRows(rows);
    SortIsPermutation(rows);
    buf := SECTION;
    buf := buf + PutStr(hash) + uuid;
    buf := buf + Word(size, 8) + Word(floor, 8) + Word(|sorted|, 4);
    FromTheLeft(SECTION, PutStr(hash), uuid, Word(size, 8), Word(floor, 8), Word(|rows|, 4), PutRows(sorted));
    buf := AppendRows(buf, sorted);
  }

  /** A buffer grown from the left is the payload read from the right. */
  lemma FromTheLeft(a: bytes, b: bytes, c: bytes, d: bytes, e: bytes, f: bytes, x: bytes)
    ensures (((((a + b) + c) + d) + e) + f) + x == a + (b + (c + (d + (e + (f + x)))))
  {
    Assoc(((((a + b) + c) + d) + e), f, x);
    Assoc((((a + b) + c) + d), e, f + x);
    Assoc(((a + b) + c), d, e + (f + x));
    Assoc((a + b), c, d + (e + (f + x)));
    Assoc(a, b, c + (d + (e + (f + x))));
  }

  method AppendRows(head: bytes, rows: seq<AllocRow>) returns (buf: bytes)
    ensures buf == head + PutRows(rows)
  {
    buf := head;
    for i := 0 to |rows|
      invariant buf + PutRows(rows[i..]) == head + PutRows(rows)
    {
      assert rows[i..][1..] == rows[i + 1..];
      var row := rows[i];
      assert buf + (PutRow(row) + PutRows(rows[i + 1..])) == (buf + PutRow(row)) + PutRows(rows[i + 1..]);
      assert buf + PutRow(row) == buf + PutStr(row.app) + Word(row.epoch, 8) + Word(row.used, 8);
      buf := buf + PutStr(row.app);
      buf := buf + Word(row.epoch, 8);
      buf := buf + Word(row.used, 8);
    }
    assert rows[|rows|..] == [] && buf + [] == buf;
  }

  method RootMacPayload(macs: seq<MacEntry>, uuid: bytes) returns (buf: bytes)
    ensures buf == Root(macs, uuid)
  {
    buf := ROOT;
    buf := buf + uuid + Word(|macs|, 4);
    ghost var head := buf;
    for i := 0 to |macs|
      invariant buf + PutMacs(macs[i..]) == head + PutMacs(macs)
    {
      assert macs[i..][1..] == macs[i + 1..];
      buf := buf + PutStr(macs[i].hash);
      buf := buf + macs[i].mac;
    }
    assert macs[|macs|..] == [] && buf + [] == buf;
    assert buf == ROOT + (uuid + (Word(|macs|, 4) + PutMacs(macs)));
  }

  // ------------------------------------------------------------ prefix reading

  lemma Assoc(a: bytes, b: bytes, c: bytes)
    ensures (a + b) + c == a + (b + c)
  {
  }

  /** Two concatenations that agree, with equally long heads, agree part by part. */
  lemma Split(a: bytes, x: bytes, b: bytes, y: bytes)
    requires |a| == |b| && a + x == b + y
    ensures a == b && x == y
  {
    assert a == (a + x)[..|a|] && b == (b + y)[..|b|];
    assert x == (a + x)[|a|..] && y == (b + y)[|b|..];
  }

  lemma WordSplit(m: nat, x: bytes, n: nat, y: bytes, width: nat)
    requires m < Pow(256, width) && n < Pow(256, width)
    requires Word(m, width) + x == Word(n, width) + y
    ensures m == n && x == y
  {
    Split(Word(m, width), x, Word(n, width), y);
    BytesInjective(m, n, width);
  }

  lemma StrSplit(s: Str, x: bytes, t: Str, y: bytes)
    requires |s| <= U32_MAX && |t| <= U32_MAX && PutStr(s) + x == PutStr(t) + y
    ensures s == t && x == y
  {
    Pow256();
    Assoc(Word(|s|, 4), s, x);
    Assoc(Word(|t|, 4), t, y);
    WordSplit(|s|, s + x, |t|, t + y, 4);
    Split(s, x, t, y);
  }

  /** A 64-bit field reads back. */
  lemma LongSplit(m: u64, x: bytes, n: u64, y: bytes)
    requires Word(m, 8) + x == Word(n, 8) + y
    ensures m == n && x == y
  {
    Pow256();
    WordSplit(m, x, n, y, 8);
  }

  // -------------------------------------------------------------- injectivity

  predicate Short(s: Str) {
    |s| <= U32_MAX
  }

  /** The credential payload determines everything it covers. */
  lemma CredentialInjective(hash: Str, id: Identity, uuid: bytes, hash': Str, id': Identity, uuid': bytes)
    requires Short(hash) && Short(id.registryId) && Short(id.rlnIdentifier) && Short(id.commitment)
    requires Short(hash') && Short(id'.registryId) && Short(id'.rlnIdentifier) && Short(id'.commitment)
    requires Credential(hash, id, uuid) == Credential(hash', id', uuid')
    ensures hash == hash' && id == id' && uuid == uuid'
  {
    var e, e' := Word(id.submittedAt, 8) + uuid, Word(id'.submittedAt, 8) + uuid';
    var d, d' := PutStr(id.commitment) + e, PutStr(id'.commitment) + e';
    var c, c' := PutStr(id.rlnIdentifier) + d, PutStr(id'.rlnIdentifier) + d';
    var b, b' := PutStr(id.registryId) + c, PutStr(id'.registryId) + c';
    Split(CREDENTIAL, PutStr(hash) + b, CREDENTIAL, PutStr(hash') + b');
    StrSplit(hash, b, hash', b');
    StrSplit(id.registryId, c, id'.registryId, c');
    StrSplit(id.rlnIdentifier, d, id'.rlnIdentifier, d');
    StrSplit(id.commitment, e, id'.commitment, e');
    LongSplit(id.submittedAt, uuid, id'.submittedAt, uuid');
  }

  lemma RowSplit(r: AllocRow, x: bytes, r': AllocRow, x': bytes)
    requires Short(r.app) && Short(r'.app) && PutRow(r) + x == PutRow(r') + x'
    ensures r == r' && x == x'
  {
    var b, b' := Word(r.used, 8) + x, Word(r'.used, 8) + x';
    assert PutRow(r) + x == PutStr(r.app) + (Word(r.epoch, 8) + b);
    assert PutRow(r') + x' == PutStr(r'.app) + (Word(r'.epoch, 8) + b');
    StrSplit(r.app, Word(r.epoch, 8) + b, r'.app, Word(r'.epoch, 8) + b');
    LongSplit(r.epoch, b, r'.epoch, b');
    LongSplit(r.used, x, r'.used, x');
  }

  lemma {:induction false} RowsInjective(rows: seq<AllocRow>, rows': seq<AllocRow>)
    requires |rows| == |rows'| && PutRows(rows) == PutRows(rows')
    requires forall r <- rows :: Short(r.app)
    requires forall r <- rows' :: Short(r.app)
    ensures rows == rows'
  {
    if rows != [] {
      RowSplit(rows[0], PutRows(rows[1..]), rows'[0], PutRows(rows'[1..]));
      RowsInjective(rows[1..], rows'[1..]);
      assert rows == [rows[0]] + rows[1..] && rows' == [rows'[0]] + rows'[1..];
    }
  }

  /** Bounds under which a section is encoded: lengths that a 32-bit count can hold, and a 16-byte uuid. */
  predicate Encodable(hash: Str, rows: seq<AllocRow>, uuid: bytes) {
    Short(hash) && |uuid| == 16 && |rows| <= U32_MAX && forall r <- rows :: Short(r.app)
  }

  /** Two section payloads are equal exactly when every covered field is, the rows up to sorting. */
  lemma SectionInjective(
    hash: Str, size: u64, floor: u64, rows: seq<AllocRow>, uuid: bytes,
    hash': Str, size': u64, floor': u64, rows': seq<AllocRow>, uuid': bytes)
    requires Encodable(hash, rows, uuid) && Encodable(hash', rows', uuid')
    ensures Section(hash, size, floor, rows, uuid) == Section(hash', size', floor', rows', uuid')
       <==> hash == hash' && size == size' && floor == floor' && uuid == uuid' && SortRows(rows) == SortRows(rows')
  {
    SortIsPermutation(rows);
    SortIsPermutation(rows');
    if Section(hash, size, floor, rows, uuid) == Section(hash', size', floor', rows', uuid') {
      var d, d' := Word(|rows|, 4) + PutRows(SortRows(rows)), Word(|rows'|, 4) + PutRows(SortRows(rows'));
      var c, c' := Word(floor, 8) + d, Word(floor', 8) + d';
      var b, b' := Word(size, 8) + c, Word(size', 8) + c';
      Split(SECTION, PutStr(hash) + (uuid + b), SECTION, PutStr(hash') + (uuid' + b'));
      StrSplit(hash, uuid + b, hash', uuid' + b');
      Split(uuid, b, uuid', b');
      LongSplit(size, c, size', c');
      LongSplit(floor, d, floor', d');
      Pow256();
      WordSplit(|rows|, PutRows(SortRows(rows)), |rows'|, PutRows(SortRows(rows')), 4);
      RowsInjective(SortRows(rows), SortRows(rows'));
    }
  }

  // -------------------------------------------------------------- the reader

  /** What a reader makes of a payload from the left: numbers most significant byte first, strings after their length. */
  datatype Read<+T> = Bad | Got(value: T, rest: bytes)

  function TakeBytes(p: bytes, n: nat): Read<bytes> {
    if |p| < n then Bad else Got(p[..n], p[n..])
  }

  function TakeWord(p: bytes, width: nat): Read<nat> {
    if |p| < width then Bad else Got(BE(256, p[..width]), p[width..])
  }

  function TakeStr(p: bytes): Read<Str> {
    match TakeWord(p, 4)
    case Bad => Bad
    case Got(n, q) => TakeBytes(q, n)
  }

  function TakeRow(p: bytes): Read<AllocRow> {
    match TakeStr(p)
    case Bad => Bad
    case Got(app, q) =>
      match TakeWord(q, 8)
      case Bad => Bad
      case Got(epoch, r) =>
        match TakeWord(r, 8)
        case Bad => Bad
        case Got(used, x) => if epoch <= U64_MAX && used <= U64_MAX then Got(AllocRow(app, epoch, used), x) else Bad
  }

  function TakeRows(p: bytes, n: nat): Read<seq<AllocRow>> {
    if n == 0 then Got([], p)
    else
      var first := TakeRow(p);
      if first.Bad? then Bad
      else
        var more := TakeRows(first.rest, n - 1);
        if more.Bad? then Bad else Got([first.value] + more.value, more.rest)
  }

  function TakeMacs(p: bytes, n: nat): Read<seq<MacEntry>> {
    if n == 0 then Got([], p)
    else
      match TakeStr(p)
      case Bad => Bad
      case Got(hash, q) =>
        match TakeBytes(q, 32)
        case Bad => Bad
        case Got(mac, r) =>
          match TakeMacs(r, n - 1)
          case Bad => Bad
          case Got(macs, x) => Got([MacEntry(hash, mac)] + macs, x)
  }

  lemma BytesRead(b: bytes, x: bytes)
    ensures TakeBytes(b + x, |b|) == Got(b, x)
  {
    assert (b + x)[..|b|] == b && (b + x)[|b|..] == x;
  }

  lemma WordRead(n: nat, width: nat, x: bytes)
    requires n < Pow(256, width)
    ensures TakeWord(Word(n, width) + x, width) == Got(n, x)
  {
    BytesRead(Word(n, width), x);
    BytesValue(n, width);
  }

  lemma StrRead(s: Str, x: bytes)
    requires Short(s)
    ensures TakeStr(PutStr(s) + x) == Got(s, x)
  {
    Pow256();
    Assoc(Word(|s|, 4), s, x);
    WordRead(|s|, 4, s + x);
    BytesRead(s, x);
  }

  lemma LongRead(n: u64, x: bytes)
    ensures TakeWord(Word(n, 8) + x, 8) == Got(n, x)
  {
    Pow256();
    WordRead(n, 8, x);
  }

  lemma RowRead(r: AllocRow, x: bytes)
    requires Short(r.app)
    ensures TakeRow(PutRow(r) + x) == Got(r, x)
  {
    Assoc(PutStr(r.app), Word(r.epoch, 8) + Word(r.used, 8), x);
    Assoc(Word(r.epoch, 8), Word(r.used, 8), x);
    StrRead(r.app, Word(r.epoch, 8) + (Word(r.used, 8) + x));
    LongRead(r.epoch, Word(r.used, 8) + x);
    LongRead(r.used, x);
  }

  lemma {:induction false} RowsRead(rows: seq<AllocRow>)
    requires forall r <- rows :: Short(r.app)
    ensures TakeRows(PutRows(rows), |rows|) == Got(rows, [])
  {
    if rows != [] {
      RowRead(rows[0], PutRows(rows[1..]));
      RowsRead(rows[1..]);
      assert TakeRow(PutRows(rows)) == Got(rows[0], PutRows(rows[1..]));
      assert rows == [rows[0]] + rows[1..];
    }
  }

  lemma {:induction false} MacsRead(macs: seq<MacEntry>)
    requires forall e <- macs :: Short(e.hash) && |e.mac| == 32
    ensures TakeMacs(PutMacs(macs), |macs|) == Got(macs, [])
  {
    if macs != [] {
      var rest := PutMacs(macs[1..]);
      Assoc(PutStr(macs[0].hash), macs[0].mac, rest);
      StrRead(macs[0].hash, macs[0].mac + rest);
      BytesRead(macs[0].mac, rest);
      MacsRead(macs[1..]);
      assert macs == [macs[0]] + macs[1..];
    }
  }

  /** The fields a payload spells, in the order it spells them. */
  datatype Field = AStr(s: Str) | ALong(n: nat) | ACount(n: nat) | Raw(b: bytes)

  /** Reading a payload field by field: does it spell exactly these, and then `rest`? */
  predicate Spells(p: bytes, fields: seq<Field>, rest: bytes) {
    if fields == [] then p == rest
    else
      match fields[0]
      case AStr(s) => var r := TakeStr(p); r.Got? && r.value == s && Spells(r.rest, fields[1..], rest)
      case ALong(n) => var r := TakeWord(p, 8); r.Got? && r.value == n && Spells(r.rest, fields[1..], rest)
      case ACount(n) => var r := TakeWord(p, 4); r.Got? && r.value == n && Spells(r.rest, fields[1..], rest)
      case Raw(b) => var r := TakeBytes(p, |b|); r.Got? && r.value == b && Spells(r.rest, fields[1..], rest)
  }

  lemma SpellsNone(p: bytes)
    ensures Spells(p, [], p)
  {
  }

  lemma SpellsStr(s: Str, x: bytes, fields: seq<Field>, rest: bytes)
    requires Short(s) && Spells(x, fields, rest)
    ensures Spells(PutStr(s) + x, [AStr(s)] + fields, rest)
  {
    StrRead(s, x);
    assert ([AStr(s)] + fields)[1..] == fields;
  }

  lemma SpellsLong(n: u64, x: bytes, fields: seq<Field>, rest: bytes)
    requires Spells(x, fields, rest)
    ensures Spells(Word(n, 8) + x, [ALong(n)] + fields, rest)
  {
    LongRead(n, x);
    assert ([ALong(n)] + fields)[1..] == fields;
  }

  lemma SpellsCount(n: nat, x: bytes, fields: seq<Field>, rest: bytes)
    requires n <= U32_MAX && Spells(x, fields, rest)
    ensures Spells(Word(n, 4) + x, [ACount(n)] + fields, rest)
  {
    Pow256();
    WordRead(n, 4, x);
    assert ([ACount(n)] + fields)[1..] == fields;
  }

  lemma SpellsRaw(b: bytes, x: bytes, fields: seq<Field>, rest: bytes)
    requires Spells(x, fields, rest)
    ensures Spells(b + x, [Raw(b)] + fields, rest)
  {
    BytesRead(b, x);
    assert ([Raw(b)] + fields)[1..] == fields;
  }

  /** The credential payload reads as its purpose, the hash, the three identity strings, the time and the uuid. */
  lemma CredentialSpells(hash: Str, id: Identity, uuid: bytes)
    requires Short(hash) && Short(id.registryId) && Short(id.rlnIdentifier) && Short(id.commitment)
    ensures Spells(Credential(hash, id, uuid),
                   [Raw(CREDENTIAL)] + ([AStr(hash)] + ([AStr(id.registryId)] + ([AStr(id.rlnIdentifier)]
                     + ([AStr(id.commitment)] + ([ALong(id.submittedAt)] + []))))),
                   uuid)
  {
    var e := Word(id.submittedAt, 8) + uuid;
    var d := PutStr(id.commitment) + e;
    var c := PutStr(id.rlnIdentifier) + d;
    var b := PutStr(id.registryId) + c;
    var f5 := [ALong(id.submittedAt)] + [];
    var f4 := [AStr(id.commitment)] + f5;
    var f3 := [AStr(id.rlnIdentifier)] + f4;
    var f2 := [AStr(id.registryId)] + f3;
    SpellsNone(uuid);
    SpellsLong(id.submittedAt, uuid, [], uuid);
    SpellsStr(id.commitment, e, f5, uuid);
    SpellsStr(id.rlnIdentifier, d, f4, uuid);
    SpellsStr(id.registryId, c, f3, uuid);
    SpellsStr(hash, b, f2, uuid);
    SpellsRaw(CREDENTIAL, PutStr(hash) + b, [AStr(hash)] + f2, uuid);
  }

  /** The section payload reads as its purpose, hash, uuid, size, floor, count, and then its sorted rows and nothing else. */
  lemma SectionSpells(hash: Str, size: u64, floor: u64, rows: seq<AllocRow>, uuid: bytes)
    requires Encodable(hash, rows, uuid)
    ensures Spells(Section(hash, size, floor, rows, uuid),
                   [Raw(SECTION)] + ([AStr(hash)] + ([Raw(uuid)] + ([ALong(size)] + ([ALong(floor)] + ([ACount(|rows|)] + []))))),
                   PutRows(SortRows(rows)))
    ensures TakeRows(PutRows(SortRows(rows)), |rows|) == Got(SortRows(rows), [])
  {
    var tail := PutRows(SortRows(rows));
    var d := Word(|rows|, 4) + tail;
    var c := Word(floor, 8) + d;
    var b := Word(size, 8) + c;
    var f5 := [ACount(|rows|)] + [];
    var f4 := [ALong(floor)] + f5;
    var f3 := [ALong(size)] + f4;
    var f2 := [Raw(uuid)] + f3;
    SpellsNone(tail);
    SpellsCount(|rows|, tail, [], tail);
    SpellsLong(floor, d, f5, tail);
    SpellsLong(size, c, f4, tail);
    SpellsRaw(uuid, b, f3, tail);
    SpellsStr(hash, uuid + b, f2, tail);
    SpellsRaw(SECTION, PutStr(hash) + (uuid + b), [AStr(hash)] + f2, tail);
    SortIsPermutation(rows);
    RowsRead(SortRows(rows));
  }

  /** The root payload reads as its purpose, uuid, count, and then each key with its MAC and nothing else. */
  lemma RootSpells(macs: seq<MacEntry>, uuid: bytes)
    requires EncodableMacs(macs, uuid)
    ensures Spells(Root(macs, uuid), [Raw(ROOT)] + ([Raw(uuid)] + ([ACount(|macs|)] + [])), PutMacs(macs))
    ensures TakeMacs(PutMacs(macs), |macs|) == Got(macs, [])
  {
    var tail := PutMacs(macs);
    SpellsNone(tail);
    SpellsCount(|macs|, tail, [], tail);
    SpellsRaw(uuid, Word(|macs|, 4) + tail, [ACount(|macs|)] + [], tail);
    SpellsRaw(ROOT, uuid + (Word(|macs|, 4) + tail), [Raw(uuid)] + ([ACount(|macs|)] + []), tail);
    MacsRead(macs);
  }

  /** The sorted rows come by application, then by epoch. */
  lemma SortedByAppThenEpoch(rows: seq<AllocRow>, k: nat)
    requires UniqueRows(rows) && 0 < k < |rows|
    ensures var sorted := SortRows(rows);
      && |sorted| == |rows| && multiset(sorted) == multiset(rows)
      && (Less(sorted[k - 1].app, sorted[k].app)
          || (sorted[k - 1].app == sorted[k].app && sorted[k - 1].epoch < sorted[k].epoch))
  {
    SortIsPermutation(rows);
    SortAscends(rows);
    assert KeyLess(SortRows(rows)[k - 1], SortRows(rows)[k]);
  }

  // ---------------------------------------------------------- the order of rows

  lemma KeyLessAsymmetric(a: AllocRow, b: AllocRow)
    requires KeyLess(a, b)
    ensures !KeyLess(b, a)
  {
    Irreflexive(a.app);
    if Less(a.app, b.app) && Less(b.app, a.app) {
      Transitive(a.app, b.app, a.app);
    }
  }

  lemma KeyLessTransitive(a: AllocRow, b: AllocRow, c: AllocRow)
    requires KeyLess(a, b) && KeyLess(b, c)
    ensures KeyLess(a, c)
  {
    if Less(a.app, b.app) && Less(b.app, c.app) {
      Transitive(a.app, b.app, c.app);
    }
  }

  predicate SameKey(a: AllocRow, b: AllocRow) {
    a.app == b.app && a.epoch == b.epoch
  }

  ghost predicate UniqueRows(rows: seq<AllocRow>) {
    forall i, j :: 0 <= i < j < |rows| ==> !SameKey(rows[i], rows[j])
  }

  ghost predicate Ascending(rows: seq<AllocRow>) {
    forall i, j :: 0 <= i < j < |rows| ==> KeyLess(rows[i], rows[j])
  }

  lemma {:induction false} InsertIsPermutation(r: AllocRow, rows: seq<AllocRow>)
    ensures multiset(InsertRow(r, rows)) == multiset(rows) + multiset{r}
    ensures |InsertRow(r, rows)| == |rows| + 1
    ensures forall x :: x in InsertRow(r, rows) <==> x == r || x in rows
  {
    if rows != [] && KeyLess(rows[0], r) {
      InsertIsPermutation(r, rows[1..]);
      assert rows == [rows[0]] + rows[1..];
    }
  }

  lemma {:induction false} SortIsPermutation(rows: seq<AllocRow>)
    ensures multiset(SortRows(rows)) == multiset(rows)
    ensures |SortRows(rows)| == |rows|
    ensures forall x :: x in SortRows(rows) <==> x in rows
  {
    if rows != [] {
      SortIsPermutation(rows[1..]);
      InsertIsPermutation(rows[0], SortRows(rows[1..]));
      assert rows == [rows[0]] + rows[1..];
    }
  }

  lemma {:induction false} InsertAscends(r: AllocRow, rows: seq<AllocRow>)
    requires Ascending(rows) && forall x <- rows :: !SameKey(x, r)
    ensures Ascending(InsertRow(r, rows))
  {
    if rows != [] {
      if KeyLess(rows[0], r) {
        InsertAscends(r, rows[1..]);
        InsertIsPermutation(r, rows[1..]);
        assert forall x <- InsertRow(r, rows[1..]) :: KeyLess(rows[0], x);
      } else {
        Trichotomy(rows[0].app, r.app);
        assert !SameKey(rows[0], r);
        forall x <- rows
          ensures KeyLess(r, x)
        {
          if x != rows[0] {
            KeyLessTransitive(r, rows[0], x);
          }
        }
      }
    }
  }

  lemma {:induction false} SortAscends(rows: seq<AllocRow>)
    requires UniqueRows(rows)
    ensures Ascending(SortRows(rows))
  {
    if rows != [] {
      SortAscends(rows[1..]);
      SortIsPermutation(rows[1..]);
      forall x <- SortRows(rows[1..])
        ensures !SameKey(x, rows[0])
      {
        assert x in rows[1..];
        var i :| 0 <= i < |rows[1..]| && rows[1..][i] == x;
        assert rows[i + 1] == x;
      }
      InsertAscends(rows[0], SortRows(rows[1..]));
    }
  }

  lemma HeadsAgree(s: seq<AllocRow>, t: seq<AllocRow>)
    requires Ascending(s) && Ascending(t) && multiset(s) == multiset(t) && s != [] && t != []
    ensures s[0] == t[0]
  {
    assert s[0] in multiset(t) && t[0] in multiset(s);
    var i :| 0 <= i < |t| && t[i] == s[0];
    var j :| 0 <= j < |s| && s[j] == t[0];
    if i > 0 && j > 0 {
      KeyLessAsymmetric(s[0], t[0]);
    }
  }

  lemma WithoutHead(s: seq<AllocRow>)
    requires s != []
    ensures multiset(s[1..]) == multiset(s) - multiset{s[0]} && s == [s[0]] + s[1..]
  {
    assert s == [s[0]] + s[1..];
  }

  /** A strictly ascending list is determined by its contents. */
  lemma {:induction false} AscendingIsCanonical(s: seq<AllocRow>, t: seq<AllocRow>)
    requires Ascending(s) && Ascending(t) && multiset(s) == multiset(t)
    ensures s == t
  {
    assert |s| == |multiset(s)| == |multiset(t)| == |t|;
    if s != [] {
      HeadsAgree(s, t);
      WithoutHead(s);
      WithoutHead(t);
      AscendingIsCanonical(s[1..], t[1..]);
    }
  }

  /** With one row per key the payload covers the set of rows: equal exactly for reorderings. */
  lemma SectionCoversRowsInAnyOrder(
    hash: Str, size: u64, floor: u64, rows: seq<AllocRow>, uuid: bytes,
    hash': Str, size': u64, floor': u64, rows': seq<AllocRow>, uuid': bytes)
    requires Encodable(hash, rows, uuid) && Encodable(hash', rows', uuid')
    requires UniqueRows(rows) && UniqueRows(rows')
    ensures Section(hash, size, floor, rows, uuid) == Section(hash', size', floor', rows', uuid')
       <==> hash == hash' && size == size' && floor == floor' && uuid == uuid' && multiset(rows) == multiset(rows')
  {
    SectionInjective(hash, size, floor, rows, uuid, hash', size', floor', rows', uuid');
    SortIsPermutation(rows);
    SortIsPermutation(rows');
    if multiset(rows) == multiset(rows') {
      SortAscends(rows);
      SortAscends(rows');
      AscendingIsCanonical(SortRows(rows), SortRows(rows'));
    }
  }

  // ---------------------------------------------------------------- the root

  lemma MacSplit(e: MacEntry, x: bytes, e': MacEntry, x': bytes)
    requires Short(e.hash) && Short(e'.hash) && |e.mac| == |e'.mac| && PutMac(e) + x == PutMac(e') + x'
    ensures e == e' && x == x'
  {
    assert PutMac(e) + x == PutStr(e.hash) + (e.mac + x) && PutMac(e') + x' == PutStr(e'.hash) + (e'.mac + x');
    StrSplit(e.hash, e.mac + x, e'.hash, e'.mac + x');
    Split(e.mac, x, e'.mac, x');
  }

  lemma {:induction false} MacsInjective(macs: seq<MacEntry>, macs': seq<MacEntry>)
    requires |macs| == |macs'| && PutMacs(macs) == PutMacs(macs')
    requires forall e <- macs :: Short(e.hash) && |e.mac| == 32
    requires forall e <- macs' :: Short(e.hash) && |e.mac| == 32
    ensures macs == macs'
  {
    if macs != [] {
      MacSplit(macs[0], PutMacs(macs[1..]), macs'[0], PutMacs(macs'[1..]));
      MacsInjective(macs[1..], macs'[1..]);
      assert macs == [macs[0]] + macs[1..] && macs' == [macs'[0]] + macs'[1..];
    }
  }

  predicate EncodableMacs(macs: seq<MacEntry>, uuid: bytes) {
    |uuid| == 16 && |macs| <= U32_MAX && forall e <- macs :: Short(e.hash) && |e.mac| == 32
  }

  /** The root payload determines every section's MAC. */
  lemma RootInjective(macs: seq<MacEntry>, uuid: bytes, macs': seq<MacEntry>, uuid': bytes)
    requires EncodableMacs(macs, uuid) && EncodableMacs(macs', uuid')
    requires Root(macs, uuid) == Root(macs', uuid')
    ensures macs == macs' && uuid == uuid'
  {
    var b, b' := Word(|macs|, 4) + PutMacs(macs), Word(|macs'|, 4) + PutMacs(macs');
    Split(ROOT, uuid + b, ROOT, uuid' + b');
    Split(uuid, b, uuid', b');
    Pow256();
    WordSplit(|macs|, PutMacs(macs), |macs'|, PutMacs(macs'), 4);
    MacsInjective(macs, macs');
  }

  /** No payload of one purpose is a payload of another, whatever either covers. */
  lemma PurposesAreDisjoint(
    hash: Str, id: Identity, uuid: bytes,
    hash': Str, size: u64, floor: u64, rows: seq<AllocRow>, uuid': bytes,
    macs: seq<MacEntry>, uuid'': bytes)
    ensures Credential(hash, id, uuid) != Section(hash', size, floor, rows, uuid')
    ensures Credential(hash, id, uuid) != Root(macs, uuid'')
    ensures Section(hash', size, floor, rows, uuid') != Root(macs, uuid'')
  {
    assert Credential(hash, id, uuid)[14] == CREDENTIAL[14] == 99;
    assert Section(hash', size, floor, rows, uuid')[14] == SECTION[14] == 115;
    assert Root(macs, uuid'')[14] == ROOT[14] == 114;
  }

  // ------------------------------------------------- the exact length limit

  /** One more than a 32-bit length can say: it is written as zero. */
  const WRAP: nat := 0x1_0000_0000

  lemma ZerosAdd(a: nat, b: nat)
    ensures Zeros(a) + Zeros(b) == Zeros(a + b)
  {
  }

  lemma {:induction false} ZeroWord(width: nat)
    ensures Word(0, width) == Zeros(width)
  {
    if width > 0 {
      ZeroWord(width - 1);
      assert Bytes(0, width) == Bytes(0, width - 1) + [0];
    }
  }

  lemma PutWrapped(s: Str)
    requires |s| == WRAP
    ensures PutStr(s) == Zeros(4) + s
  {
    WrapsToZero();
  }

  lemma PutEmpty()
    ensures PutStr([]) == Zeros(4)
  {
    WrapsToZero();
  }

  predicate CredentialUpTo(n: nat, hash: Str, id: Identity) {
    |hash| <= n && |id.registryId| <= n && |id.rlnIdentifier| <= n && |id.commitment| <= n
  }

  ghost predicate CredentialsDistinct(n: nat) {
    forall hash: Str, id: Identity, uuid: bytes, hash': Str, id': Identity, uuid': bytes ::
      (&& CredentialUpTo(n, hash, id) && CredentialUpTo(n, hash', id')
       && Credential(hash, id, uuid) == Credential(hash', id', uuid'))
      ==> hash == hash' && id == id' && uuid == uuid'
  }

  /** A string of 2^32 zero bytes can move from one field to the next unseen. */
  lemma LongStringsCollide(z: Str, id: Identity, uuid: bytes)
    requires z == Zeros(WRAP)
    ensures Credential(z, id.(registryId := []), uuid) == Credential([], id.(registryId := z), uuid)
  {
    PutWrapped(z);
    PutEmpty();
    var rest := PutStr(id.rlnIdentifier) + (PutStr(id.commitment) + (Word(id.submittedAt, 8) + uuid));
    assert z + Zeros(4) == Zeros(4) + z;
    assert PutStr(z) + (PutStr([]) + rest) == (PutStr(z) + PutStr([])) + rest;
    assert PutStr([]) + (PutStr(z) + rest) == (PutStr([]) + PutStr(z)) + rest;
  }

  /** Credential payloads over strings of at most n bytes are injective if and only if n is a 32-bit length. */
  lemma CredentialsDistinctIff(n: nat)
    ensures CredentialsDistinct(n) <==> n <= U32_MAX
  {
    if n <= U32_MAX {
      forall hash: Str, id: Identity, uuid: bytes, hash': Str, id': Identity, uuid': bytes |
        CredentialUpTo(n, hash, id) && CredentialUpTo(n, hash', id')
        && Credential(hash, id, uuid) == Credential(hash', id', uuid')
        ensures hash == hash' && id == id' && uuid == uuid'
      {
        CredentialInjective(hash, id, uuid, hash', id', uuid');
      }
    } else {
      var z, id := Zeros(WRAP), Identity([], [], [], 0);
      LongStringsCollide(z, id, []);
      assert CredentialUpTo(n, z, id.(registryId := [])) && CredentialUpTo(n, [], id.(registryId := z));
    }
  }

  predicate SectionUpTo(n: nat, hash: Str, rows: seq<AllocRow>, uuid: bytes) {
    |hash| <= n && |rows| <= n && |uuid| == 16 && forall r <- rows :: |r.app| <= n
  }

  ghost predicate SectionsDistinct(n: nat) {
    forall hash: Str, size: u64, floor: u64, rows: seq<AllocRow>, uuid: bytes,
      hash': Str, size': u64, floor': u64, rows': seq<AllocRow>, uuid': bytes ::
      (&& SectionUpTo(n, hash, rows, uuid) && SectionUpTo(n, hash', rows', uuid') && UniqueRows(rows) && UniqueRows(rows')
       && Section(hash, size, floor, rows, uuid) == Section(hash', size', floor', rows', uuid'))
      ==> hash == hash' && size == size' && floor == floor' && uuid == uuid' && multiset(rows) == multiset(rows')
  }

  /** The fields of a section with an empty hash, up to its one row's length. */
  function LongHead(): (h: bytes)
    ensures |h| == 40
  {
    Zeros(32) + (Word(1, 4) + Word(WRAP - 20, 4))
  }

  /** A whole section can pass for a hash of 2^32 bytes followed by an empty one. */
  lemma LongHashCollides()
    ensures var hash, row := LongHead() + Zeros(WRAP - 40), AllocRow(Zeros(WRAP - 20), 0, 0);
      Section(hash, 0, 0, [], Zeros(16)) == Section([], 0, 0, [row], Zeros(16))
  {
    var hash, row := LongHead() + Zeros(WRAP - 40), AllocRow(Zeros(WRAP - 20), 0, 0);
    ZeroWord(8);
    ZeroWord(4);
    PutWrapped(hash);
    PutEmpty();
    assert SortRows([]) == [] && PutRows([]) == [];
    assert SortRows([row]) == [row] && [row][1..] == [] && PutRows([row]) == PutRow(row);
    EmptySectionTail();
    OneRowSection(row);
    Assoc(Zeros(4), hash, Zeros(36));
    Assoc(LongHead(), Zeros(WRAP - 40), Zeros(36));
    ZerosAdd(WRAP - 40, 36);
  }

  lemma EmptySectionTail()
    ensures Zeros(16) + (Zeros(8) + (Zeros(8) + (Zeros(4) + []))) == Zeros(36)
  {
  }

  lemma OneRowSection(row: AllocRow)
    requires row == AllocRow(Zeros(WRAP - 20), 0, 0)
    ensures Zeros(16) + (Zeros(8) + (Zeros(8) + (Word(1, 4) + PutRow(row)))) == LongHead() + Zeros(WRAP - 4)
  {
    ZeroWord(8);
    ZerosAdd(8, 8);
    ZerosAdd(WRAP - 20, 16);
    Assoc(Word(WRAP - 20, 4), Zeros(WRAP - 20), Zeros(16));
    var tail := Word(1, 4) + (Word(WRAP - 20, 4) + Zeros(WRAP - 4));
    assert PutRow(row) == Word(WRAP - 20, 4) + Zeros(WRAP - 4);
    assert Zeros(16) + (Zeros(8) + (Zeros(8) + tail)) == Zeros(32) + tail;
    Assoc(Word(1, 4), Word(WRAP - 20, 4), Zeros(WRAP - 4));
    Assoc(Zeros(32), Word(1, 4) + Word(WRAP - 20, 4), Zeros(WRAP - 4));
  }

  /** Section payloads over strings and lists of length at most n are injective, up to row order, if and only if n is a 32-bit length. */
  lemma SectionsDistinctIff(n: nat)
    ensures SectionsDistinct(n) <==> n <= U32_MAX
  {
    if n <= U32_MAX {
      forall hash: Str, size: u64, floor: u64, rows: seq<AllocRow>, uuid: bytes,
        hash': Str, size': u64, floor': u64, rows': seq<AllocRow>, uuid': bytes |
        SectionUpTo(n, hash, rows, uuid) && SectionUpTo(n, hash', rows', uuid') && UniqueRows(rows) && UniqueRows(rows')
        && Section(hash, size, floor, rows, uuid) == Section(hash', size', floor', rows', uuid')
        ensures hash == hash' && size == size' && floor == floor' && uuid == uuid' && multiset(rows) == multiset(rows')
      {
        SectionCoversRowsInAnyOrder(hash, size, floor, rows, uuid, hash', size', floor', rows', uuid');
      }
    } else {
      var hash, row := LongHead() + Zeros(WRAP - 40), AllocRow(Zeros(WRAP - 20), 0, 0);
      LongHashCollides();
      assert SectionUpTo(n, hash, [], Zeros(16)) && SectionUpTo(n, [], [row], Zeros(16));
      assert UniqueRows([]) && UniqueRows([row]);
    }
  }

  /** The order a `BTreeMap` lists its keys in. */
  ghost predicate Listed(macs: seq<MacEntry>) {
    forall i, j :: 0 <= i < j < |macs| ==> Less(macs[i].hash, macs[j].hash)
  }

  predicate MacsUpTo(n: nat, macs: seq<MacEntry>, uuid: bytes) {
    |uuid| == 16 && |macs| <= n && forall e <- macs :: |e.hash| <= n && |e.mac| == 32
  }

  ghost predicate RootsDistinct(n: nat) {
    forall macs: seq<MacEntry>, uuid: bytes, macs': seq<MacEntry>, uuid': bytes ::
      (&& MacsUpTo(n, macs, uuid) && MacsUpTo(n, macs', uuid') && Listed(macs) && Listed(macs')
       && Root(macs, uuid) == Root(macs', uuid'))
      ==> macs == macs' && uuid == uuid'
  }

  lemma ThreeMacs(a: MacEntry, b: MacEntry, c: MacEntry)
    ensures PutMacs([a, b, c]) == PutMac(a) + (PutMac(b) + PutMac(c))
  {
    assert [a, b, c][1..] == [b, c] && [b, c][1..] == [c] && [c][1..] == [];
    assert PutMacs([c]) == PutMac(c);
  }

  /** What both of the colliding lists end with. */
  function LongTail(): (t: bytes)
    ensures |t| == WRAP - 1
  {
    Zeros(WRAP - 75) + (Zeros(32) + (PutStr([1]) + (Zeros(32) + PutStr([2]))))
  }

  /** A key that reads as a MAC, a short key, another MAC and the head of a third entry. */
  function LongKey(): (k: bytes)
    ensures |k| == WRAP && k[0] == 0
  {
    Zeros(32) + (PutStr([0, 0]) + (Zeros(32) + (Zeros(4) + ([1] + Zeros(WRAP - 75)))))
  }

  function ListA(): seq<MacEntry> {
    [MacEntry([], Zeros(32)), MacEntry([0, 0], Zeros(32)), MacEntry([1] + LongTail(), Zeros(32))]
  }

  function ListB(): seq<MacEntry> {
    [MacEntry(LongKey(), Zeros(32)), MacEntry([1], Zeros(32)), MacEntry([2], Zeros(32))]
  }

  lemma AssocFive(a: bytes, b: bytes, c: bytes, d: bytes, e: bytes, x: bytes)
    ensures (a + (b + (c + (d + e)))) + x == a + (b + (c + (d + (e + x))))
  {
    Assoc(a, b + (c + (d + e)), x);
    Assoc(b, c + (d + e), x);
    Assoc(c, d + e, x);
    Assoc(d, e, x);
  }

  /** The list whose last key is the long one. */
  lemma LongLast(z: bytes, w: bytes, p: bytes, t: bytes)
    ensures (w + z) + ((p + z) + ((w + t) + z)) == w + (z + (p + (z + (w + (t + z)))))
  {
    Assoc(w, t, z);
    Assoc(p, z, w + (t + z));
    Assoc(w, z, p + (z + (w + (t + z))));
  }

  /** The list whose first key is the long one. */
  lemma LongFirst(z: bytes, w: bytes, h: bytes, p: bytes, q: bytes)
    ensures ((w + h) + z) + ((p + z) + (q + z)) == w + (h + (z + (p + (z + (q + z)))))
  {
    Assoc(p, z, q + z);
    Assoc(w, h, z);
    Assoc(w, h + z, p + (z + (q + z)));
    Assoc(h, z, p + (z + (q + z)));
  }

  /** Two lists of three, each in key order, with one payload. */
  lemma LongMacsCollide()
    ensures PutMacs(ListA()) == PutMacs(ListB())
  {
    var a, b, z, w := ListA(), ListB(), Zeros(32), Zeros(4);
    ThreeMacs(a[0], a[1], a[2]);
    ThreeMacs(b[0], b[1], b[2]);
    PutEmpty();
    PutWrapped(a[2].hash);
    PutWrapped(b[0].hash);
    var p, q, r, gap := PutStr([0, 0]), PutStr([1]), PutStr([2]), Zeros(WRAP - 75);
    LongLast(z, w, p, a[2].hash);
    LongFirst(z, w, b[0].hash, q, r);
    Assoc([1], LongTail(), z);
    AssocFive(gap, z, q, z, r, z);
    var end := z + (q + (z + (r + z)));
    AssocFive(z, p, z, w, [1] + gap, end);
    Assoc([1], gap, end);
  }

  /** Three keys with rising first bytes, the first one possibly empty. */
  lemma ThreeListed(n: nat, a: MacEntry, b: MacEntry, c: MacEntry)
    requires |a.hash| <= n && |b.hash| <= n && |c.hash| <= n && 3 <= n
    requires |a.mac| == |b.mac| == |c.mac| == 32
    requires b.hash != [] && c.hash != [] && (a.hash == [] || a.hash[0] < b.hash[0]) && b.hash[0] < c.hash[0]
    ensures MacsUpTo(n, [a, b, c], Zeros(16)) && Listed([a, b, c])
  {
    assert Less(a.hash, b.hash) && Less(b.hash, c.hash) && Less(a.hash, c.hash);
  }

  lemma ListsAreLegal(n: nat)
    requires n > U32_MAX
    ensures MacsUpTo(n, ListA(), Zeros(16)) && Listed(ListA())
    ensures MacsUpTo(n, ListB(), Zeros(16)) && Listed(ListB())
    ensures ListA() != ListB()
  {
    var a, b := ListA(), ListB();
    ThreeListed(n, a[0], a[1], a[2]);
    ThreeListed(n, b[0], b[1], b[2]);
    assert a[0].hash != b[0].hash;
  }

  /** Root payloads over strings and lists of length at most n are injective if and only if n is a 32-bit length. */
  lemma RootsDistinctIff(n: nat)
    ensures RootsDistinct(n) <==> n <= U32_MAX
  {
    if n <= U32_MAX {
      forall macs: seq<MacEntry>, uuid: bytes, macs': seq<MacEntry>, uuid': bytes |
        MacsUpTo(n, macs, uuid) && MacsUpTo(n, macs', uuid') && Listed(macs) && Listed(macs')
        && Root(macs, uuid) == Root(macs', uuid')
        ensures macs == macs' && uuid == uuid'
      {
        RootInjective(macs, uuid, macs', uuid');
      }
    } else {
      LongMacsCollide();
      ListsAreLegal(n);
      assert Root(ListA(), Zeros(16)) == Root(ListB(), Zeros(16));
    }
  }

  lemma WrapsToZero()
    ensures Word(U32_MAX + 1, 4) == Word(0, 4) == [0, 0, 0, 0]
  {
    assert Bytes(0, 1) == Bytes(0, 0) + [0];
    assert Bytes(0, 2) == Bytes(0, 1) + [0];
    assert Bytes(0, 3) == Bytes(0, 2) + [0];
    assert Bytes(0x1_0000_0000, 4) == Bytes(0x100_0000, 3) + [0];
    assert Bytes(0x100_0000, 3) == Bytes(0x1_0000, 2) + [0];
    assert Bytes(0x1_0000, 2) == Bytes(0x100, 1) + [0];
  }
}
