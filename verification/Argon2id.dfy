/** Password records (internal/auth/argon2id.go): PHC strings written by Hash, read back by Verify with
    drift detection, and the older "argon2id:" rows that are only read.

    The Argon2id function itself is a parameter that may panic (it does for zero rounds or threads), and
    the random salt is an argument. */
module Argon2id {
  import opened Common
  import opened Text
  import opened Base64

  type U32 = x: int | 0 <= x <= 0xFFFF_FFFF

  type U8 = x: int | 0 <= x <= 0xFF

  datatype Params = Params(memoryKB: U32, iterations: U32, parallelism: U8, saltBytes: U32, hashBytes: U32)

  datatype VerifyResult = VerifyResult(ok: bool, needsRehash: bool)

  datatype Outcome<T> = Panic | Done(value: T)

  /** argon2.IDKey: password, salt, iterations, memory, parallelism, length of the key. */
  type Kdf = (string, Octets, U32, U32, U8, U32) -> Outcome<Octets>

  const VERSION: nat := 19
  const LEGACY_PREFIX: string := "argon2id:"
  const PHC_PREFIX: string := "$argon2id$"

  /** The keys have the length asked for. */
  ghost predicate Sized(kdf: Kdf) {
    forall password, salt, t, m, p, n ::
      kdf(password, salt, t, m, p, n).Done? ==> |kdf(password, salt, t, m, p, n).value| == n
  }

  function Wrap32(n: int): U32 { n % 0x1_0000_0000 }

  function Wrap8(n: int): U8 { n % 0x100 }

  function Derive(kdf: Kdf, password: string, salt: Octets, p: Params): Outcome<Octets> {
    kdf(password, salt, p.iterations, p.memoryKB, p.parallelism, p.hashBytes)
  }

  // ----- Writing -----

  function Field(key: string, n: nat): string { key + "=" + Itoa(n) }

  function CostFields(m: nat, t: nat, p: nat): (parts: seq<string>)
    ensures |parts| == 3
  {
    [Field("m", m), Field("t", t), Field("p", p)]
  }

  /** The PHC string: version 19, memory, iterations and parallelism, then salt and key in base64. */
  predicate IsRecord(s: string, p: Params, salt: Octets, digest: Octets) {
    s == "$argon2id$v=19$m=" + Itoa(p.memoryKB) + ",t=" + Itoa(p.iterations) + ",p=" + Itoa(p.parallelism)
         + "$" + Encode(salt) + "$" + Encode(digest)
  }

  lemma VersionText()
    ensures Itoa(VERSION) == "19"
  {
    assert Itoa(1) == "1";
  }

  lemma Regrouped(v: string, m: string, t: string, p: string, a: string, b: string)
    ensures "$argon2id$v=" + v + "$" + ("m=" + m + ",t=" + t + ",p=" + p) + "$" + a + "$" + b
         == "$argon2id$v=" + v + "$m=" + m + ",t=" + t + ",p=" + p + "$" + a + "$" + b
  {
  }

  lemma Nineteen(m: string, t: string, p: string, a: string, b: string)
    ensures "$argon2id$v=" + "19" + "$m=" + m + ",t=" + t + ",p=" + p + "$" + a + "$" + b
         == "$argon2id$v=19$m=" + m + ",t=" + t + ",p=" + p + "$" + a + "$" + b
  {
    assert "$argon2id$v=" + "19" + "$m=" == "$argon2id$v=19$m=";
  }

  lemma PhcIsRecord(p: Params, salt: Octets, digest: Octets)
    ensures IsRecord(PhcText(p, salt, digest), p, salt, digest)
  {
    VersionText();
    Regrouped("19", Itoa(p.memoryKB), Itoa(p.iterations), Itoa(p.parallelism), Encode(salt), Encode(digest));
    Nineteen(Itoa(p.memoryKB), Itoa(p.iterations), Itoa(p.parallelism), Encode(salt), Encode(digest));
  }

  /** "$argon2id$v=%d$m=%d,t=%d,p=%d$%s$%s" */
  function PhcText(p: Params, salt: Octets, digest: Octets): string {
    "$argon2id$v=" + Itoa(VERSION) + "$" + CostText(p.memoryKB, p.iterations, p.parallelism)
    + "$" + Encode(salt) + "$" + Encode(digest)
  }

  function Phc(p: Params, salt: Octets, digest: Octets): Octets {
    PhcIsOctets(p, salt, digest);
    AsOctets(PhcText(p, salt, digest))
  }

  function CostText(m: nat, t: nat, p: nat): string {
    "m=" + Itoa(m) + ",t=" + Itoa(t) + ",p=" + Itoa(p)
  }

  /** The algo column of an older row. */
  function LegacyFields(m: nat, t: nat, p: nat, s: nat, h: nat): (parts: seq<string>)
    ensures |parts| == 5
  {
    [Field("m", m), Field("t", t), Field("p", p), Field("s", s), Field("h", h)]
  }

  function LegacyAlgo(m: nat, t: nat, p: nat, s: nat, h: nat): string {
    LEGACY_PREFIX + Join(LegacyFields(m, t, p, s, h), ',')
  }

  // ----- Reading -----

  datatype Pair = Pair(key: string, value: nat)

  /** "k=n", cut at the first '='. */
  function ReadField(part: string): Option<Pair> {
    var eq := IndexOf(part, '=');
    if eq < 0 then None
    else
      var n := ParseUint32(part[eq + 1..]);
      if n.None? then None else Some(Pair(part[..eq], n.value))
  }

  datatype Cost = Cost(memoryKB: U32, iterations: U32, parallelism: U8)

  /** Unknown keys are passed over; a later field overwrites an earlier one. */
  function SetCost(c: Cost, f: Pair): Cost
    requires f.value <= MAX_UINT32
  {
    if f.key == "m" then c.(memoryKB := f.value)
    else if f.key == "t" then c.(iterations := f.value)
    else if f.key == "p" then c.(parallelism := Wrap8(f.value))
    else c
  }

  function ReadCost(parts: seq<string>, c: Cost): Option<Cost> {
    if parts == [] then Some(c)
    else
      var f := ReadField(parts[0]);
      if f.None? then None else ReadCost(parts[1..], SetCost(c, f.value))
  }

  datatype Record = Record(cost: Cost, salt: Octets, digest: Octets)

  function ReadPhc(stored: string): Option<Record> {
    ReadParts(Split(stored, '$'))
  }

  function ReadParts(parts: seq<string>): Option<Record> {
    if |parts| != 6 || parts[0] != "" || parts[1] != "argon2id" || parts[2] != Field("v", VERSION) then None
    else
      var cost := ReadCost(Split(parts[3], ','), Cost(0, 0, 0));
      var salt := Decode(parts[4]);
      var digest := Decode(parts[5]);
      if cost.None? || salt.None? || digest.None? then None
      else Some(Record(cost.value, salt.value, digest.value))
  }

  function SetParam(p: Params, f: Pair): Option<Params>
    requires f.value <= MAX_UINT32
  {
    if f.key == "m" then Some(p.(memoryKB := f.value))
    else if f.key == "t" then Some(p.(iterations := f.value))
    else if f.key == "p" then Some(p.(parallelism := Wrap8(f.value)))
    else if f.key == "s" then Some(p.(saltBytes := f.value))
    else if f.key == "h" then Some(p.(hashBytes := f.value))
    else None
  }

  function ReadParams(parts: seq<string>, p: Params): Option<Params> {
    if parts == [] then Some(p)
    else
      var f := ReadField(parts[0]);
      if f.None? then None
      else
        var q := SetParam(p, f.value);
        if q.None? then None else ReadParams(parts[1..], q.value)
  }

  predicate Complete(p: Params) {
    p.memoryKB != 0 && p.iterations != 0 && p.parallelism != 0 && p.saltBytes != 0 && p.hashBytes != 0
  }

  const NO_PARAMS: Params := Params(0, 0, 0, 0, 0)

  function ReadLegacy(algo: string): Option<Params> {
    if !(LEGACY_PREFIX <= algo) then None
    else
      var p := ReadParams(Split(algo[|LEGACY_PREFIX|..], ','), NO_PARAMS);
      if p.Some? && Complete(p.value) then p else None
  }

  // ----- Verifying -----

  datatype Match = Match(ok: bool, drift: bool)

  function MatchPhc(own: Params, password: string, stored: string, kdf: Kdf): Outcome<Match> {
    match ReadPhc(stored)
    case None => Done(Match(false, false))
    case Some(r) => MatchRecord(own, password, r, kdf)
  }

  function MatchRecord(own: Params, password: string, r: Record, kdf: Kdf): Outcome<Match> {
    match kdf(password, r.salt, r.cost.iterations, r.cost.memoryKB, r.cost.parallelism, Wrap32(|r.digest|))
    case Panic => Panic
    case Done(actual) =>
      if r.digest != actual then Done(Match(false, false))
      else Done(Match(true, Params(r.cost.memoryKB, r.cost.iterations, r.cost.parallelism,
                                   Wrap32(|r.salt|), Wrap32(|r.digest|)) != own))
  }

  function MatchLegacy(own: Params, password: string, stored: Octets, algo: string, kdf: Kdf): Outcome<bool> {
    match ReadLegacy(algo)
    case None =>
      if Derive(kdf, password, Zeros(own.saltBytes), own).Panic? then Panic else Done(false)
    case Some(p) =>
      if Wrap32(|stored|) != Wrap32(p.saltBytes + p.hashBytes) then Done(false)
      else if |stored| < p.saltBytes then Panic
      else
        match Derive(kdf, password, stored[..p.saltBytes], p)
        case Panic => Panic
        case Done(actual) => Done(stored[p.saltBytes..] == actual)
  }

  function Zeros(n: nat): Octets { seq(n, _ => '\0') }

  predicate Known(stored: string, algo: string) {
    LEGACY_PREFIX <= algo || PHC_PREFIX <= stored
  }

  function VerifyKnown(own: Params, password: string, stored: Octets, algo: string, kdf: Kdf): Outcome<VerifyResult>
    requires Known(stored, algo)
  {
    if LEGACY_PREFIX <= algo then
      match MatchLegacy(own, password, stored, algo, kdf)
      case Panic => Panic
      case Done(ok) => Done(VerifyResult(ok, ok))
    else
      match MatchPhc(own, password, stored, kdf)
      case Panic => Panic
      case Done(m) => Done(VerifyResult(m.ok, m.ok && m.drift))
  }

  // ----- Round trips -----

  /** A printed field reads back, unless its number does not fit. */
  lemma ReadUndoesField(key: string, n: nat)
    requires '=' !in key
    ensures ReadField(Field(key, n)) == if n <= MAX_UINT32 then Some(Pair(key, n)) else None
  {
    var f := Field(key, n);
    var eq := IndexOf(f, '=');
    assert f[|key|] == '=';
    assert eq == |key|;
    assert f[..eq] == key && f[eq + 1..] == Itoa(n);
    ParseUndoesItoa(n);
  }

  lemma FieldHasOnly(key: string, n: nat, c: char)
    requires c !in key && c != '=' && !IsDigit(c)
    ensures c !in Field(key, n)
  {
    var f := Field(key, n);
    forall i | 0 <= i < |f| ensures f[i] != c {
      if i > |key| { assert f[i] == Itoa(n)[i - |key| - 1]; }
    }
  }

  /** The parallelism keeps its low eight bits only. */
  lemma ReadUndoesCost(m: nat, t: nat, p: nat)
    requires m <= MAX_UINT32 && t <= MAX_UINT32 && p <= MAX_UINT32
    ensures ReadCost(Split(Join(CostFields(m, t, p), ','), ','), Cost(0, 0, 0)) == Some(Cost(m, t, Wrap8(p)))
  {
    var parts := CostFields(m, t, p);
    FieldHasOnly("m", m, ',');
    FieldHasOnly("t", t, ',');
    FieldHasOnly("p", p, ',');
    SplitUndoesJoin(parts, ',');
    ReadUndoesField("m", m);
    ReadUndoesField("t", t);
    ReadUndoesField("p", p);
    var c := Cost(m, 0, 0);
    assert parts[1..][1..] == parts[2..] && parts[2..][1..] == [];
    assert ReadCost(parts[2..], Cost(m, t, 0)) == Some(Cost(m, t, Wrap8(p)));
    assert ReadCost(parts[1..], c) == ReadCost(parts[2..], Cost(m, t, 0));
  }

  function PhcParts(p: Params, salt: Octets, digest: Octets): (parts: seq<string>)
    ensures |parts| == 6
  {
    ["", "argon2id", Field("v", VERSION), Join(CostFields(p.memoryKB, p.iterations, p.parallelism), ','),
     Encode(salt), Encode(digest)]
  }

  lemma CostIsJoined(m: nat, t: nat, p: nat)
    ensures Join(CostFields(m, t, p), ',') == CostText(m, t, p)
  {
    var parts := CostFields(m, t, p);
    assert Join(parts[2..], ',') == parts[2];
    assert Join(parts[1..], ',') == parts[1] + [','] + Join(parts[1..][1..], ',');
    assert parts[1..][1..] == parts[2..];
  }

  lemma Chain(parts: seq<string>, c: char)
    requires |parts| == 6
    ensures Join(parts, c) == parts[0] + [c] + (parts[1] + [c] + (parts[2] + [c] + (parts[3] + [c]
                                                                + (parts[4] + [c] + parts[5]))))
  {
    assert parts[1..][1..] == parts[2..];
    assert parts[2..][1..] == parts[3..];
    assert parts[3..][1..] == parts[4..];
    assert parts[4..][1..] == parts[5..];
    assert Join(parts[5..], c) == parts[5];
    assert Join(parts[4..], c) == parts[4] + [c] + parts[5];
    assert Join(parts[3..], c) == parts[3] + [c] + Join(parts[4..], c);
    assert Join(parts[2..], c) == parts[2] + [c] + Join(parts[3..], c);
  }

  lemma Regroup(x: string, k: string, a: string, b: string)
    ensures x + "$" + k + "$" + a + "$" + b == x + ("$" + (k + "$" + (a + "$" + b)))
  {
  }

  lemma PrefixText(v: string, rest: string)
    ensures "$argon2id$v=" + v + rest == "" + "$" + ("argon2id" + "$" + ("v" + "=" + v + rest))
  {
    assert "$argon2id$v=" == "$" + "argon2id" + "$" + "v" + "=";
  }

  lemma PhcIsJoined(p: Params, salt: Octets, digest: Octets)
    ensures PhcText(p, salt, digest) == Join(PhcParts(p, salt, digest), '$')
  {
    var parts := PhcParts(p, salt, digest);
    Chain(parts, '$');
    CostIsJoined(p.memoryKB, p.iterations, p.parallelism);
    Regroup("$argon2id$v=" + Itoa(VERSION), parts[3], parts[4], parts[5]);
    PrefixText(Itoa(VERSION), "$" + (parts[3] + "$" + (parts[4] + "$" + parts[5])));
  }

  lemma {:induction false} JoinIsOctets(parts: seq<string>, c: Octet)
    requires |parts| > 0
    requires forall i :: 0 <= i < |parts| ==> IsOctets(parts[i])
    ensures IsOctets(Join(parts, c))
    decreases |parts|
  {
    if |parts| > 1 {
      JoinIsOctets(parts[1..], c);
    }
  }

  lemma PhcIsOctets(p: Params, salt: Octets, digest: Octets)
    ensures IsOctets(PhcText(p, salt, digest))
  {
    PartsAreOctets(p, salt, digest);
    PhcIsJoined(p, salt, digest);
    JoinIsOctets(PhcParts(p, salt, digest), '$');
  }

  lemma PartsAreOctets(p: Params, salt: Octets, digest: Octets)
    ensures forall i :: 0 <= i < 6 ==> IsOctets(PhcParts(p, salt, digest)[i])
  {
    JoinIsOctets(CostFields(p.memoryKB, p.iterations, p.parallelism), ',');
    assert IsOctets(Field("v", VERSION));
  }

  lemma NoDollar(p: Params, salt: Octets, digest: Octets)
    ensures forall i :: 0 <= i < 6 ==> '$' !in PhcParts(p, salt, digest)[i]
  {
    FieldHasOnly("v", VERSION, '$');
    FieldHasOnly("m", p.memoryKB, '$');
    FieldHasOnly("t", p.iterations, '$');
    FieldHasOnly("p", p.parallelism, '$');
    JoinHasOnly(CostFields(p.memoryKB, p.iterations, p.parallelism), ',', '$');
    assert Sextet('$') == -1;
  }

  lemma {:induction false} JoinHasOnly(parts: seq<string>, c: char, d: char)
    requires |parts| > 0 && c != d
    requires forall i :: 0 <= i < |parts| ==> d !in parts[i]
    ensures d !in Join(parts, c)
    decreases |parts|
  {
    if |parts| > 1 {
      JoinHasOnly(parts[1..], c, d);
    }
  }

  lemma Wrap8Keeps(x: U8)
    ensures Wrap8(x) == x
  {
  }

  lemma ReadUndoesParts(p: Params, salt: Octets, digest: Octets)
    ensures ReadParts(PhcParts(p, salt, digest))
         == Some(Record(Cost(p.memoryKB, p.iterations, p.parallelism), salt, digest))
  {
    ReadUndoesCost(p.memoryKB, p.iterations, p.parallelism);
    Wrap8Keeps(p.parallelism);
    DecodeUndoesEncode(salt);
    DecodeUndoesEncode(digest);
  }

  /** Everything Hash writes reads back as it was. */
  lemma ReadUndoesPhc(p: Params, salt: Octets, digest: Octets)
    ensures ReadPhc(PhcText(p, salt, digest))
         == Some(Record(Cost(p.memoryKB, p.iterations, p.parallelism), salt, digest))
  {
    PhcIsJoined(p, salt, digest);
    NoDollar(p, salt, digest);
    SplitUndoesJoin(PhcParts(p, salt, digest), '$');
    ReadUndoesParts(p, salt, digest);
  }

  lemma PrintedText(x: string, m: string, t: string, p: string)
    ensures x + "$m=" + m + ",t=" + t + ",p=" + p == x + "$" + ("m=" + m + ",t=" + t + ",p=" + p)
  {
  }

  lemma PrefixStays(prefix: string, x: string, k: string, a: string, b: string)
    requires prefix <= x
    ensures prefix <= x + "$" + k + "$" + a + "$" + b
  {
  }

  lemma HashIsKnown(p: Params, salt: Octets, digest: Octets)
    ensures PHC_PREFIX <= PhcText(p, salt, digest)
  {
    assert "$argon2id$v=" + Itoa(VERSION) == PHC_PREFIX + ("v=" + Itoa(VERSION));
    PrefixStays(PHC_PREFIX, "$argon2id$v=" + Itoa(VERSION), CostText(p.memoryKB, p.iterations, p.parallelism),
                Encode(salt), Encode(digest));
  }

  /** Verify under q of a record written under p: another password is accepted exactly when Argon2id
      gives it the same key, and then a rehash is asked for exactly when the parameters differ. */
  lemma VerifyOfHash(p: Params, q: Params, salt: Octets, digest: Octets, password: string, algo: string, kdf: Kdf)
    requires |salt| == p.saltBytes && |digest| == p.hashBytes && !(LEGACY_PREFIX <= algo)
    ensures Known(Phc(p, salt, digest), algo)
    ensures var key := kdf(password, salt, p.iterations, p.memoryKB, p.parallelism, p.hashBytes);
            var same := key == Done(digest);
            VerifyKnown(q, password, Phc(p, salt, digest), algo, kdf)
            == if key.Panic? then Panic
               else Done(VerifyResult(same, same && p != q))
  {
    var stored := Phc(p, salt, digest);
    HashIsKnown(p, salt, digest);
    ReadUndoesPhc(p, salt, digest);
    MatchOfRecord(p, q, salt, digest, password, kdf);
    VerifyIsMatch(q, password, stored, algo, kdf, Record(Cost(p.memoryKB, p.iterations, p.parallelism), salt, digest));
  }

  lemma MatchOfRecord(p: Params, q: Params, salt: Octets, digest: Octets, password: string, kdf: Kdf)
    requires |salt| == p.saltBytes && |digest| == p.hashBytes
    ensures var same := Derive(kdf, password, salt, p) == Done(digest);
            MatchRecord(q, password, Record(Cost(p.memoryKB, p.iterations, p.parallelism), salt, digest), kdf)
            == if Derive(kdf, password, salt, p).Panic? then Panic else Done(Match(same, same && p != q))
  {
    assert Wrap32(|digest|) == p.hashBytes && Wrap32(|salt|) == p.saltBytes;
  }

  lemma VerifyIsMatch(q: Params, password: string, stored: Octets, algo: string, kdf: Kdf, r: Record)
    requires PHC_PREFIX <= stored && !(LEGACY_PREFIX <= algo) && ReadPhc(stored) == Some(r)
    ensures VerifyKnown(q, password, stored, algo, kdf)
         == match MatchRecord(q, password, r, kdf)
            case Panic => Panic
            case Done(m) => Done(VerifyResult(m.ok, m.ok && m.drift))
  {
  }

  /** The password that was hashed is accepted. */
  lemma HashThenVerify(p: Params, q: Params, salt: Octets, digest: Octets, password: string, kdf: Kdf)
    requires Sized(kdf) && |salt| == p.saltBytes
    requires kdf(password, salt, p.iterations, p.memoryKB, p.parallelism, p.hashBytes) == Done(digest)
    ensures Known(Phc(p, salt, digest), "")
    ensures VerifyKnown(q, password, Phc(p, salt, digest), "", kdf) == Done(VerifyResult(true, p != q))
  {
    assert kdf(password, salt, p.iterations, p.memoryKB, p.parallelism, p.hashBytes) == Done(digest);
    VerifyOfHash(p, q, salt, digest, password, "", kdf);
  }

  /** Different costs, salts or keys give different records. */
  lemma RecordsAreDistinct(p: Params, salt: Octets, digest: Octets, p': Params, salt': Octets, digest': Octets)
    requires Phc(p, salt, digest) == Phc(p', salt', digest')
    ensures salt == salt' && digest == digest'
    ensures p.(saltBytes := 0, hashBytes := 0) == p'.(saltBytes := 0, hashBytes := 0)
  {
    ReadUndoesPhc(p, salt, digest);
    ReadUndoesPhc(p', salt', digest');
  }

  // ----- Nothing else is accepted -----

  /** A text that is read as a record is one: the two prefixes, a list of costs, and salt and key in base64. */
  lemma OnlyRecordsAreRead(stored: string) returns (costs: string, salt: string, digest: string)
    requires ReadPhc(stored).Some?
    ensures stored == "" + ['$'] + ("argon2id" + ['$'] + (Field("v", VERSION) + ['$'] + (costs + ['$']
                                                                + (salt + ['$'] + digest))))
    ensures var r := ReadPhc(stored).value;
            && Decode(salt) == Some(r.salt) && Decode(digest) == Some(r.digest)
            && ReadCost(Split(costs, ','), Cost(0, 0, 0)) == Some(r.cost)
  {
    var parts := Split(stored, '$');
    JoinUndoesSplit(stored, '$');
    Chain(parts, '$');
    costs, salt, digest := parts[3], parts[4], parts[5];
  }

  /** A password is accepted only for its key: whatever the row, it must read as a record whose key is Argon2id's for the
      record's own salt and costs, or as an older row that is salt and key. */
  lemma AcceptanceNeedsTheKey(own: Params, password: string, stored: Octets, algo: string, kdf: Kdf)
    requires Known(stored, algo)
    requires var r := VerifyKnown(own, password, stored, algo, kdf); r.Done? && r.value.ok
    ensures !(LEGACY_PREFIX <= algo) ==>
              && ReadPhc(stored).Some?
              && var r := ReadPhc(stored).value;
                 kdf(password, r.salt, r.cost.iterations, r.cost.memoryKB, r.cost.parallelism, Wrap32(|r.digest|)) == Done(r.digest)
    ensures LEGACY_PREFIX <= algo ==>
              && ReadLegacy(algo).Some? && Complete(ReadLegacy(algo).value) && |stored| >= ReadLegacy(algo).value.saltBytes
              && var p := ReadLegacy(algo).value;
                 kdf(password, stored[..p.saltBytes], p.iterations, p.memoryKB, p.parallelism, p.hashBytes)
                 == Done(stored[p.saltBytes..])
  {
  }

  // ----- Older rows -----

  lemma LegacyRegrouped(m: string, t: string, p: string, s: string, h: string)
    ensures "argon2id:" + ("m=" + m + ("," + ("t=" + t + ("," + ("p=" + p + ("," + ("s=" + s + ("," + ("h=" + h)))))))))
         == "argon2id:m=" + m + ",t=" + t + ",p=" + p + ",s=" + s + ",h=" + h
  {
    assert "argon2id:" + "m=" == "argon2id:m=";
    assert "," + "t=" == ",t=" && "," + "p=" == ",p=" && "," + "s=" == ",s=" && "," + "h=" == ",h=";
  }

  /** The algo column of an older row, written out. */
  lemma LegacyText(m: nat, t: nat, p: nat, s: nat, h: nat)
    ensures LegacyAlgo(m, t, p, s, h)
         == "argon2id:m=" + Itoa(m) + ",t=" + Itoa(t) + ",p=" + Itoa(p) + ",s=" + Itoa(s) + ",h=" + Itoa(h)
  {
    FiveJoined(LegacyFields(m, t, p, s, h), ',');
    assert "m" + "=" == "m=" && "t" + "=" == "t=" && "p" + "=" == "p=" && "s" + "=" == "s=" && "h" + "=" == "h=";
    LegacyRegrouped(Itoa(m), Itoa(t), Itoa(p), Itoa(s), Itoa(h));
  }

  lemma FiveJoined(parts: seq<string>, c: char)
    requires |parts| == 5
    ensures Join(parts, c) == parts[0] + ([c] + (parts[1] + ([c] + (parts[2] + ([c] + (parts[3] + ([c] + parts[4])))))))
  {
    assert parts[1..][1..] == parts[2..] && parts[2..][1..] == parts[3..] && parts[3..][1..] == parts[4..];
    assert Join(parts[4..], c) == parts[4];
    assert Join(parts[3..], c) == parts[3] + [c] + Join(parts[4..], c);
    assert Join(parts[2..], c) == parts[2] + [c] + Join(parts[3..], c);
    assert Join(parts[1..], c) == parts[1] + [c] + Join(parts[2..], c);
  }

  predicate Fits(n: nat) { n <= MAX_UINT32 }

  lemma ReadParamsStep(key: string, n: nat, rest: seq<string>, p: Params)
    requires '=' !in key
    ensures ReadParams([Field(key, n)] + rest, p)
         == if !Fits(n) || SetParam(p, Pair(key, n)).None? then None
            else ReadParams(rest, SetParam(p, Pair(key, n)).value)
  {
    ReadUndoesField(key, n);
    var parts := [Field(key, n)] + rest;
    assert parts[1..] == rest;
  }

  lemma ReadSizes(s: nat, h: nat, p: Params)
    ensures ReadParams([Field("s", s), Field("h", h)], p)
         == if Fits(s) && Fits(h) then Some(p.(saltBytes := s, hashBytes := h)) else None
  {
    assert [Field("s", s), Field("h", h)] == [Field("s", s)] + [Field("h", h)];
    assert [Field("h", h)] == [Field("h", h)] + [];
    ReadParamsStep("s", s, [Field("h", h)], p);
    if Fits(s) {
      ReadParamsStep("h", h, [], p.(saltBytes := s));
    }
  }

  lemma ReadThreeFields(m: nat, t: nat, p: nat, rest: seq<string>)
    ensures ReadParams(CostFields(m, t, p) + rest, NO_PARAMS)
         == if Fits(m) && Fits(t) && Fits(p) then ReadParams(rest, Params(m, t, Wrap8(p), 0, 0)) else None
  {
    var after1, after2 := [Field("t", t)] + ([Field("p", p)] + rest), [Field("p", p)] + rest;
    assert CostFields(m, t, p) + rest == [Field("m", m)] + after1;
    ReadParamsStep("m", m, after1, NO_PARAMS);
    if Fits(m) {
      ReadParamsStep("t", t, after2, Params(m, 0, 0, 0, 0));
      if Fits(t) {
        ReadParamsStep("p", p, rest, Params(m, t, 0, 0, 0));
      }
    }
  }

  lemma ReadParamsOfFields(m: nat, t: nat, p: nat, s: nat, h: nat)
    ensures ReadParams(LegacyFields(m, t, p, s, h), NO_PARAMS)
         == if Fits(m) && Fits(t) && Fits(p) && Fits(s) && Fits(h) then Some(Params(m, t, Wrap8(p), s, h)) else None
  {
    var sizes := [Field("s", s), Field("h", h)];
    assert LegacyFields(m, t, p, s, h) == CostFields(m, t, p) + sizes;
    ReadThreeFields(m, t, p, sizes);
    if Fits(m) && Fits(t) && Fits(p) {
      ReadSizes(s, h, Params(m, t, Wrap8(p), 0, 0));
    }
  }

  /** An algo column reads back exactly when every number fits 32 bits and none reads as zero; the
      parallelism is cut to eight bits first, so 256 threads read as none. */
  lemma ReadUndoesLegacy(m: nat, t: nat, p: nat, s: nat, h: nat)
    ensures ReadLegacy(LegacyAlgo(m, t, p, s, h))
         == if Fits(m) && Fits(t) && Fits(p) && Fits(s) && Fits(h) && Complete(Params(m, t, Wrap8(p), s, h))
            then Some(Params(m, t, Wrap8(p), s, h)) else None
  {
    var parts, algo := LegacyFields(m, t, p, s, h), LegacyAlgo(m, t, p, s, h);
    assert algo[|LEGACY_PREFIX|..] == Join(parts, ',');
    FieldHasOnly("m", m, ',');
    FieldHasOnly("t", t, ',');
    FieldHasOnly("p", p, ',');
    FieldHasOnly("s", s, ',');
    FieldHasOnly("h", h, ',');
    SplitUndoesJoin(parts, ',');
    ReadParamsOfFields(m, t, p, s, h);
  }

  lemma SizesWrap(n: U32, s: U32, h: U32)
    ensures Wrap32(n) == Wrap32(s + h) <==> n == s + h || n + 0x1_0000_0000 == s + h
    ensures n + 0x1_0000_0000 == s + h ==> n < s
  {
  }

  /** An older row is accepted exactly when it is the salt followed by the key of the password. The two
      sizes are added in 32 bits: where that sum wraps onto the row's length, slicing off the salt panics. */
  lemma LegacyAcceptance(own: Params, p: Params, password: string, stored: Octets, algo: string, kdf: Kdf)
    requires LEGACY_PREFIX <= algo && ReadLegacy(algo) == Some(p) && |stored| <= MAX_UINT32 && Sized(kdf)
    requires forall salt: Octets :: kdf(password, salt, p.iterations, p.memoryKB, p.parallelism, p.hashBytes).Done?
    ensures var r := VerifyKnown(own, password, stored, algo, kdf);
            && (r.Panic? <==> |stored| + 0x1_0000_0000 == p.saltBytes + p.hashBytes)
            && (r.Done? ==> r.value.needsRehash == r.value.ok)
            && (r.Done? && r.value.ok <==>
                  exists salt: Octets ::
                    && |salt| == p.saltBytes
                    && stored == salt + kdf(password, salt, p.iterations, p.memoryKB, p.parallelism, p.hashBytes).value)
  {
    var r := VerifyKnown(own, password, stored, algo, kdf);
    SizesWrap(|stored|, p.saltBytes, p.hashBytes);
    if r.Done? && r.value.ok {
      AcceptedSplits(own, p, password, stored, algo, kdf);
    }
    forall salt: Octets | |salt| == p.saltBytes && stored == salt + Derive(kdf, password, salt, p).value
      ensures r.Done? && r.value.ok
    {
      SaltThenKey(own, p, password, salt, stored, algo, kdf);
    }
  }

  lemma AcceptedSplits(own: Params, p: Params, password: string, stored: Octets, algo: string, kdf: Kdf)
    requires LEGACY_PREFIX <= algo && ReadLegacy(algo) == Some(p)
    requires var r := VerifyKnown(own, password, stored, algo, kdf); r.Done? && r.value.ok
    ensures exists salt: Octets ::
              |salt| == p.saltBytes && Derive(kdf, password, salt, p).Done?
              && stored == salt + Derive(kdf, password, salt, p).value
  {
    var salt: Octets := stored[..p.saltBytes];
    assert stored == salt + Derive(kdf, password, salt, p).value;
  }

  lemma SaltThenKey(own: Params, p: Params, password: string, salt: Octets, stored: Octets, algo: string, kdf: Kdf)
    requires LEGACY_PREFIX <= algo && ReadLegacy(algo) == Some(p) && Sized(kdf)
    requires |salt| == p.saltBytes && Derive(kdf, password, salt, p).Done?
    requires stored == salt + Derive(kdf, password, salt, p).value
    ensures VerifyKnown(own, password, stored, algo, kdf) == Done(VerifyResult(true, true))
  {
    assert |kdf(password, salt, p.iterations, p.memoryKB, p.parallelism, p.hashBytes).value| == p.hashBytes;
    assert stored[..p.saltBytes] == salt;
    assert stored[p.saltBytes..] == Derive(kdf, password, salt, p).value;
  }

  /** Such rows: whatever is stored, there are sizes that add up to its length in 32 bits alone. */
  lemma WrappedSizesPanic(own: Params, password: string, stored: Octets, kdf: Kdf, m: U32, t: U32, p: U8)
    returns (s: U32, h: U32)
    requires m != 0 && t != 0 && p != 0 && |stored| < MAX_UINT32
    ensures var algo := LegacyAlgo(m, t, p, s, h);
            LEGACY_PREFIX <= algo && VerifyKnown(own, password, stored, algo, kdf).Panic?
  {
    s, h := MAX_UINT32, |stored| + 1;
    Wrap8Keeps(p);
    ReadUndoesLegacy(m, t, p, s, h);
    WrapsToPanic(own, Params(m, t, p, s, h), password, stored, LegacyAlgo(m, t, p, s, h), kdf);
  }

  lemma WrapsToPanic(own: Params, p: Params, password: string, stored: Octets, algo: string, kdf: Kdf)
    requires LEGACY_PREFIX <= algo && ReadLegacy(algo) == Some(p)
    requires |stored| + 0x1_0000_0000 == p.saltBytes + p.hashBytes && |stored| <= MAX_UINT32
    ensures VerifyKnown(own, password, stored, algo, kdf).Panic?
  {
    SizesWrap(|stored|, p.saltBytes, p.hashBytes);
  }

  // ----- The code -----

  method HasPrefix(b: Octets, prefix: string) returns (r: bool)
    ensures r == (prefix <= b)
  {
    if |b| < |prefix| {
      return false;
    }
    for i := 0 to |prefix|
      invariant prefix[..i] == b[..i]
    {
      if b[i] != prefix[i] {
        return false;
      }
    }
    return true;
  }

  method CutField(part: string) returns (r: Option<Pair>)
    ensures r == ReadField(part)
    ensures r.Some? ==> r.value.value <= MAX_UINT32
  {
    var eq := IndexOf(part, '=');
    if eq < 0 {
      return None;
    }
    var k, n := part[..eq], ParseUint32(part[eq + 1..]);
    if n.None? {
      return None;
    }
    return Some(Pair(k, n.value));
  }

  method ParseLegacyAlgo(algo: string) returns (r: Option<Params>)
    ensures r == ReadLegacy(algo)
  {
    if !(LEGACY_PREFIX <= algo) {
      return None;
    }
    var parts := Split(algo[|LEGACY_PREFIX|..], ',');
    var p := NO_PARAMS;
    for i := 0 to |parts|
      invariant ReadParams(parts, NO_PARAMS) == ReadParams(parts[i..], p)
    {
      assert parts[i..][1..] == parts[i + 1..];
      var f := CutField(parts[i]);
      if f.None? {
        return None;
      }
      var n := f.value.value;
      match f.value.key {
        case "m" => p := p.(memoryKB := n);
        case "t" => p := p.(iterations := n);
        case "p" => p := p.(parallelism := n % 0x100);
        case "s" => p := p.(saltBytes := n);
        case "h" => p := p.(hashBytes := n);
        case _ => return None;
      }
    }
    if p.memoryKB == 0 || p.iterations == 0 || p.parallelism == 0 || p.saltBytes == 0 || p.hashBytes == 0 {
      return None;
    }
    return Some(p);
  }

  method ParseCost(text: string) returns (r: Option<Cost>)
    ensures r == ReadCost(Split(text, ','), Cost(0, 0, 0))
  {
    var parts := Split(text, ',');
    var memKB: U32, iters: U32, par: U8 := 0, 0, 0;
    for i := 0 to |parts|
      invariant ReadCost(parts, Cost(0, 0, 0)) == ReadCost(parts[i..], Cost(memKB, iters, par))
    {
      assert parts[i..][1..] == parts[i + 1..];
      var f := CutField(parts[i]);
      if f.None? {
        return None;
      }
      var n := f.value.value;
      match f.value.key {
        case "m" => memKB := n;
        case "t" => iters := n;
        case "p" => par := n % 0x100;
        case _ =>
      }
    }
    return Some(Cost(memKB, iters, par));
  }

  method IsVersion(part: string) returns (current: bool)
    ensures current <==> part == Field("v", VERSION)
  {
    return part == "v=" + Itoa(VERSION);
  }

  method ParsePhc(stored: string) returns (r: Option<Record>)
    ensures r == ReadPhc(stored)
  {
    var parts := Split(stored, '$');
    if |parts| != 6 || parts[0] != "" || parts[1] != "argon2id" {
      return None;
    }
    var current := IsVersion(parts[2]);
    if !current {
      return None;
    }
    var cost := ParseCost(parts[3]);
    if cost.None? {
      return None;
    }
    var salt := Decode(parts[4]);
    if salt.None? {
      return None;
    }
    var expected := Decode(parts[5]);
    if expected.None? {
      return None;
    }
    return Some(Record(cost.value, salt.value, expected.value));
  }

  class Hasher {
    const params: Params
    const kdf: Kdf
    var dummyDone: bool
    var dummyHash: Octets

    constructor (p: Params, f: Kdf)
      requires Sized(f)
      ensures Valid() && params == p && kdf == f
    {
      params, kdf := p, f;
      dummyDone, dummyHash := false, [];
    }

    /** The throwaway hash is a record this hasher wrote. */
    ghost predicate Valid()
      reads this
    {
      && Sized(kdf)
      && (dummyHash != [] ==> exists salt: Octets, digest: Octets ::
            |salt| == params.saltBytes && |digest| == params.hashBytes && dummyHash == Phc(params, salt, digest))
    }

    /** Argon2id succeeds on the hasher's own parameters. */
    ghost predicate Usable() {
      forall password: string, salt: Octets ::
        kdf(password, salt, params.iterations, params.memoryKB, params.parallelism, params.hashBytes).Done?
    }

    method Hash(password: string, salt: Octets) returns (r: Outcome<Octets>)
      requires Valid() && |salt| == params.saltBytes
      ensures var key := kdf(password, salt, params.iterations, params.memoryKB, params.parallelism, params.hashBytes);
              && (r.Panic? <==> key.Panic?)
              && (r.Done? ==> r.value == Phc(params, salt, key.value))
      ensures r.Done? ==> (&& Known(r.value, "")
                           && VerifyKnown(params, password, r.value, "", kdf) == Done(VerifyResult(true, false)))
    {
      var digest := kdf(password, salt, params.iterations, params.memoryKB, params.parallelism, params.hashBytes);
      if digest.Panic? {
        return Panic;
      }
      var phc := "$argon2id$v=" + Itoa(VERSION) + "$m=" + Itoa(params.memoryKB) + ",t=" + Itoa(params.iterations)
                 + ",p=" + Itoa(params.parallelism) + "$" + Encode(salt) + "$" + Encode(digest.value);
      PrintedText("$argon2id$v=" + Itoa(VERSION), Itoa(params.memoryKB), Itoa(params.iterations), Itoa(params.parallelism));
      HashThenVerify(params, params, salt, digest.value, password, kdf);
      PhcIsOctets(params, salt, digest.value);
      return Done(AsOctets(phc));
    }

    method Verify(password: string, stored: Octets, algo: string, seedSalt: Octets)
      returns (r: Outcome<VerifyResult>)
      requires Valid() && |seedSalt| == params.saltBytes
      modifies this
      ensures Valid()
      ensures Known(stored, algo) ==> r == VerifyKnown(params, password, stored, algo, kdf) && unchanged(this)
      ensures !Known(stored, algo) ==> r == Panic || r == Done(VerifyResult(false, false))
      ensures !Known(stored, algo) && Usable() ==> r.Done?
    {
      if LEGACY_PREFIX <= algo {
        var ok := VerifyLegacy(password, stored, algo);
        return match ok case Panic => Panic case Done(b) => Done(VerifyResult(b, b));
      }
      var phc := HasPrefix(stored, PHC_PREFIX);
      if phc {
        var m := VerifyPHC(password, stored);
        return match m case Panic => Panic case Done(d) => Done(VerifyResult(d.ok, d.ok && d.drift));
      }
      var done := VerifyDummy(password, seedSalt);
      return if done then Done(VerifyResult(false, false)) else Panic;
    }

    method VerifyDummy(password: string, seedSalt: Octets) returns (done: bool)
      requires Valid() && |seedSalt| == params.saltBytes
      modifies this
      ensures Valid() && dummyDone
      ensures old(dummyDone) ==> unchanged(this)
      ensures Usable() ==> done
    {
      if !dummyDone {
        dummyDone := true;
        var seed := Hash("nightms-dummy-hash-seed-1234567890", seedSalt);
        if seed.Panic? {
          return false;
        }
        ghost var digest := Derive(kdf, "nightms-dummy-hash-seed-1234567890", seedSalt, params).value;
        assert |digest| == params.hashBytes;
        dummyHash := seed.value;
      }
      if dummyHash == [] {
        var key := kdf(password, Zeros(params.saltBytes), params.iterations, params.memoryKB, params.parallelism,
                       params.hashBytes);
        assert key == Derive(kdf, password, Zeros(params.saltBytes), params);
        return key.Done?;
      }
      ghost var salt: Octets, digest: Octets :|
        |salt| == params.saltBytes && |digest| == params.hashBytes && dummyHash == Phc(params, salt, digest);
      VerifyOfHash(params, params, salt, digest, password, "", kdf);
      var m := VerifyPHC(password, dummyHash);
      return m.Done?;
    }

    method VerifyLegacy(password: string, stored: Octets, algo: string) returns (r: Outcome<bool>)
      ensures r == MatchLegacy(params, password, stored, algo, kdf)
    {
      var parsed := ParseLegacyAlgo(algo);
      if parsed.None? {
        var key := kdf(password, Zeros(params.saltBytes), params.iterations, params.memoryKB, params.parallelism,
                       params.hashBytes);
        return if key.Panic? then Panic else Done(false);
      }
      var p := parsed.value;
      if |stored| % 0x1_0000_0000 != (p.saltBytes + p.hashBytes) % 0x1_0000_0000 {
        return Done(false);
      }
      if |stored| < p.saltBytes {
        return Panic;
      }
      var salt, expected := stored[..p.saltBytes], stored[p.saltBytes..];
      var actual := kdf(password, salt, p.iterations, p.memoryKB, p.parallelism, p.hashBytes);
      if actual.Panic? {
        return Panic;
      }
      return Done(expected == actual.value);
    }

    method VerifyPHC(password: string, stored: Octets) returns (r: Outcome<Match>)
      ensures r == MatchPhc(params, password, stored, kdf)
    {
      var record := ParsePhc(stored);
      if record.None? {
        return Done(Match(false, false));
      }
      var c, salt, expected := record.value.cost, record.value.salt, record.value.digest;
      var size := |expected| % 0x1_0000_0000;
      var actual := kdf(password, salt, c.iterations, c.memoryKB, c.parallelism, size);
      if actual.Panic? {
        return Panic;
      }
      if expected != actual.value {
        return Done(Match(false, false));
      }
      var drift := c.memoryKB != params.memoryKB || c.iterations != params.iterations
                   || c.parallelism != params.parallelism || |salt| % 0x1_0000_0000 != params.saltBytes
                   || size != params.hashBytes;
      return Done(Match(true, drift));
    }
  }
}
