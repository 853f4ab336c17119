/**
 The tamper-evident audit chain: each row commits to its predecessor's hash and to
 its own canonical content. The hash is a parameter. No function into 64-character
 digests is injective, so the theorems do not assume it: they either give the
 conclusion or name the texts, among those actually hashed, that break the hash.
 */
module AuditChain {
  import opened Prelude
  import opened CanonicalJson

  const GENESIS_HASH: string := "0000000000000000000000000000000000000000000000000000000000000000"

  type Digest = d: string | |d| == 64 witness GENESIS_HASH
  type Hash = string -> Digest

  /** The seven audited fields; the time is in microseconds since the epoch. */
  datatype Content = Content(
    actorUserId: Option<Text>, actorRole: Option<Text>, action: Text, entityType: Text,
    entityId: Option<Text>, summary: Option<Text>, createdAt: Option<int>)

  datatype Row = Row(id: int, content: Content, prevHash: string, rowHash: string)

  function StringOrNull(t: Option<Text>): Json {
    match t case None => JNull case Some(s) => JString(Utf16(s))
  }

  function IntOrNull(n: Option<int>): Json {
    match n case None => JNull case Some(i) => JInt(i)
  }

  function Field(name: string, value: Json): Member
    requires IsAscii(name)
  {
    Member(Key(name), value)
  }

  /** The members in the order `sort_keys` gives them. */
  function Members(c: Content): seq<Member> {
    [Field("action", JString(Utf16(c.action))),
     Field("actor_role", StringOrNull(c.actorRole)),
     Field("actor_user_id", StringOrNull(c.actorUserId)),
     Field("created_at", IntOrNull(c.createdAt)),
     Field("entity_id", StringOrNull(c.entityId)),
     Field("entity_type", JString(Utf16(c.entityType))),
     Field("summary", StringOrNull(c.summary))]
  }

  function CanonicalPayload(c: Content): string { PrintObject(Members(c)) }

  function ComputeRowHash(H: Hash, prev: string, payload: string): Digest { H(prev + payload) }

  // ---- what the payload says ------------------------------------------------

  function TextUnits(t: Option<Text>): Option<seq<Unit>> {
    match t case None => None case Some(s) => Some(Utf16(s))
  }

  /** Equal as far as JSON can tell: the same nulls, times and UTF-16 code units. */
  ghost predicate SameOnWire(a: Content, b: Content) {
    && TextUnits(a.actorUserId) == TextUnits(b.actorUserId)
    && TextUnits(a.actorRole) == TextUnits(b.actorRole)
    && Utf16(a.action) == Utf16(b.action)
    && Utf16(a.entityType) == Utf16(b.entityType)
    && TextUnits(a.entityId) == TextUnits(b.entityId)
    && TextUnits(a.summary) == TextUnits(b.summary)
    && a.createdAt == b.createdAt
  }

  ghost predicate ScalarOption(t: Option<Text>) { t.Some? ==> Scalar(t.value) }

  /** Content the database can store: no surrogate code points. */
  ghost predicate Storable(c: Content) {
    && ScalarOption(c.actorUserId) && ScalarOption(c.actorRole) && Scalar(c.action)
    && Scalar(c.entityType) && ScalarOption(c.entityId) && ScalarOption(c.summary)
  }

  /** The payload identifies the content exactly up to code units. */
  lemma PayloadDeterminesFields(a: Content, b: Content)
    ensures CanonicalPayload(a) == CanonicalPayload(b) <==> SameOnWire(a, b)
  {
    hide PrintObject, ReadObject, Utf16;
    if CanonicalPayload(a) == CanonicalPayload(b) {
      ReadPrintedObject(Members(a));
      ReadPrintedObject(Members(b));
      var ma, mb := Members(a), Members(b);
      assert ma == mb;
      assert ma[0].value == mb[0].value && ma[1].value == mb[1].value && ma[2].value == mb[2].value;
      assert ma[3].value == mb[3].value && ma[4].value == mb[4].value;
      assert ma[5].value == mb[5].value && ma[6].value == mb[6].value;
    }
  }

  lemma OptionInjective(s: Option<Text>, t: Option<Text>)
    requires ScalarOption(s) && ScalarOption(t) && TextUnits(s) == TextUnits(t)
    ensures s == t
  {
    if s.Some? { Utf16Injective(s.value, t.value); }
  }

  /** On content the database can store, equal payloads mean equal content. */
  lemma PayloadInjective(a: Content, b: Content)
    requires Storable(a) && Storable(b)
    ensures CanonicalPayload(a) == CanonicalPayload(b) <==> a == b
  {
    PayloadDeterminesFields(a, b);
    if SameOnWire(a, b) {
      OptionInjective(a.actorUserId, b.actorUserId);
      OptionInjective(a.actorRole, b.actorRole);
      Utf16Injective(a.action, b.action);
      Utf16Injective(a.entityType, b.entityType);
      OptionInjective(a.entityId, b.entityId);
      OptionInjective(a.summary, b.summary);
    }
  }

  /** Outside that domain it fails: an emoji and its two surrogates print alike. */
  lemma SurrogatePairsCollide(c: Content)
    ensures var whole := c.(action := [0x1F600]);
            var split := c.(action := [0xD83D, 0xDE00]);
            whole != split && CanonicalPayload(whole) == CanonicalPayload(split)
  {
    hide CanonicalPayload;
    var whole := c.(action := [0x1F600]);
    var split := c.(action := [0xD83D, 0xDE00]);
    assert Utf16(whole.action) == [0xD83D, 0xDE00] by { assert whole.action[1..] == []; }
    assert Utf16(split.action) == [0xD83D, 0xDE00] by {
      assert split.action[1..] == [0xDE00];
      assert split.action[1..][1..] == [];
    }
    PayloadDeterminesFields(whole, split);
  }

  function Lookup(ms: seq<Member>, name: string): Option<Json>
    requires IsAscii(name)
  {
    if ms == [] then None
    else if ms[0].key == Key(name) then Some(ms[0].value)
    else Lookup(ms[1..], name)
  }

  ghost predicate Before(a: seq<Unit>, b: seq<Unit>, n: nat) {
    n < |a| && n < |b| && a[..n] == b[..n] && a[n] < b[n]
  }

  ghost predicate KeyBefore(a: seq<Unit>, b: seq<Unit>) { exists n: nat :: Before(a, b, n) }

  /** Strictly ascending keys: what `sort_keys` promises. */
  ghost predicate KeysAscending(ms: seq<Member>) {
    forall i | 0 <= i < |ms| - 1 :: KeyBefore(ms[i].key, ms[i + 1].key)
  }

  ghost predicate NamedInOrder(ms: seq<Member>) {
    && |ms| == 7
    && ms[0].key == Key("action") && ms[1].key == Key("actor_role") && ms[2].key == Key("actor_user_id")
    && ms[3].key == Key("created_at") && ms[4].key == Key("entity_id")
    && ms[5].key == Key("entity_type") && ms[6].key == Key("summary")
  }

  lemma NamesAscending(ms: seq<Member>)
    requires NamedInOrder(ms)
    ensures KeysAscending(ms)
  {
    assert Before(ms[0].key, ms[1].key, 3);
    assert Before(ms[1].key, ms[2].key, 6);
    assert Before(ms[2].key, ms[3].key, 0);
    assert Before(ms[3].key, ms[4].key, 0);
    assert Before(ms[4].key, ms[5].key, 7);
    assert Before(ms[5].key, ms[6].key, 0);
  }

  lemma {:induction false} LookupAt(ms: seq<Member>, name: string, k: nat)
    requires IsAscii(name) && k < |ms| && ms[k].key == Key(name)
    requires forall i | 0 <= i < k :: ms[i].key != Key(name)
    ensures Lookup(ms, name) == Some(ms[k].value)
  {
    if k > 0 { LookupAt(ms[1..], name, k - 1); }
  }

  lemma LookupAll(ms: seq<Member>)
    requires NamedInOrder(ms)
    ensures Lookup(ms, "action") == Some(ms[0].value)
    ensures Lookup(ms, "actor_role") == Some(ms[1].value)
    ensures Lookup(ms, "actor_user_id") == Some(ms[2].value)
    ensures Lookup(ms, "created_at") == Some(ms[3].value)
    ensures Lookup(ms, "entity_id") == Some(ms[4].value)
    ensures Lookup(ms, "entity_type") == Some(ms[5].value)
    ensures Lookup(ms, "summary") == Some(ms[6].value)
  {
    var k := seq(7, i requires 0 <= i < 7 => ms[i].key);
    assert |k[0]| == 6 && |k[1]| == 10 && |k[2]| == 13 && |k[3]| == 10 && |k[4]| == 9 && |k[5]| == 11 && |k[6]| == 7;
    assert k[1][0] != k[3][0];
    LookupAt(ms, "action", 0);
    LookupAt(ms, "actor_role", 1);
    LookupAt(ms, "actor_user_id", 2);
    LookupAt(ms, "created_at", 3);
    LookupAt(ms, "entity_id", 4);
    LookupAt(ms, "entity_type", 5);
    LookupAt(ms, "summary", 6);
  }

  lemma PayloadReadsBack(c: Content)
    ensures ReadObject(CanonicalPayload(c)) == Some(Members(c))
  {
    hide Members, PrintObject, ReadObject;
    ReadPrintedObject(Members(c));
  }

  /** The seven fields, looked up by name. */
  ghost predicate Describes(ms: seq<Member>, c: Content) {
    && Lookup(ms, "action") == Some(JString(Utf16(c.action)))
    && Lookup(ms, "actor_role") == Some(StringOrNull(c.actorRole))
    && Lookup(ms, "actor_user_id") == Some(StringOrNull(c.actorUserId))
    && Lookup(ms, "created_at") == Some(IntOrNull(c.createdAt))
    && Lookup(ms, "entity_id") == Some(StringOrNull(c.entityId))
    && Lookup(ms, "entity_type") == Some(JString(Utf16(c.entityType)))
    && Lookup(ms, "summary") == Some(StringOrNull(c.summary))
  }

  lemma MembersDescribe(c: Content)
    ensures NamedInOrder(Members(c)) && Describes(Members(c), c)
  {
    hide Key, Lookup, StringOrNull, IntOrNull, Utf16;
    LookupAll(Members(c));
  }

  /** Read as JSON, the payload is an object of the seven fields under their own names, keys sorted. */
  lemma PayloadMeaning(c: Content)
    ensures exists ms: seq<Member> ::
              ReadObject(CanonicalPayload(c)) == Some(ms) && |ms| == 7 && KeysAscending(ms) && Describes(ms, c)
  {
    hide Members, CanonicalPayload, ReadObject, KeysAscending, Describes, Key;
    PayloadReadsBack(c);
    MembersDescribe(c);
    NamesAscending(Members(c));
  }

  // ---- the chain ------------------------------------------------------------

  function RowText(r: Row): string { r.prevHash + CanonicalPayload(r.content) }

  function PrevOf(rows: seq<Row>, k: nat): string
    requires k <= |rows|
  {
    if k == 0 then GENESIS_HASH else rows[k - 1].rowHash
  }

  /** The hash the next append links to. */
  function Head(rows: seq<Row>): string { PrevOf(rows, |rows|) }

  ghost predicate Linked(H: Hash, rows: seq<Row>, k: nat)
    requires k < |rows|
  {
    && rows[k].prevHash == PrevOf(rows, k)
    && rows[k].rowHash == H(RowText(rows[k]))
  }

  ghost predicate Intact(H: Hash, rows: seq<Row>) {
    forall k | 0 <= k < |rows| :: Linked(H, rows, k)
  }

  /** Row k is the first whose linkage or stored hash is wrong. */
  ghost predicate BreaksAt(H: Hash, rows: seq<Row>, k: nat) {
    k < |rows| && !Linked(H, rows, k) && forall j | 0 <= j < k :: Linked(H, rows, j)
  }

  /** The verifier loop: it accepts the intact chains and names the first bad row. */
  method VerifyRows(H: Hash, rows: seq<Row>) returns (ok: bool, firstBad: Option<int>)
    ensures ok <==> Intact(H, rows)
    ensures ok ==> firstBad == None
    ensures !ok ==> exists k: nat :: BreaksAt(H, rows, k) && firstBad == Some(rows[k].id)
  {
    hide CanonicalPayload;
    var prev := GENESIS_HASH;
    for i := 0 to |rows|
      invariant prev == PrevOf(rows, i)
      invariant forall j | 0 <= j < i :: Linked(H, rows, j)
    {
      var r := rows[i];
      var expected := ComputeRowHash(H, prev, CanonicalPayload(r.content));
      if r.prevHash != prev || r.rowHash != expected {
        assert BreaksAt(H, rows, i) by {
          assert r.prevHash == prev ==> RowText(r) == prev + CanonicalPayload(r.content);
        }
        return false, Some(r.id);
      }
      prev := r.rowHash;
    }
    return true, None;
  }

  // ---- what an intact chain proves -------------------------------------------

  ghost function Texts(rows: seq<Row>): set<string> {
    set i | 0 <= i < |rows| :: RowText(rows[i])
  }

  ghost predicate Collides(H: Hash, texts: set<string>) {
    exists x, y :: x in texts && y in texts && x != y && H(x) == H(y)
  }

  ghost predicate HitsGenesis(H: Hash, texts: set<string>) {
    exists x :: x in texts && H(x) == GENESIS_HASH
  }

  /** A concrete break of the hash among the given texts. */
  ghost predicate HashBroken(H: Hash, texts: set<string>) {
    Collides(H, texts) || HitsGenesis(H, texts)
  }

  lemma HashBrokenMonotone(H: Hash, few: set<string>, many: set<string>)
    requires few <= many && HashBroken(H, few)
    ensures HashBroken(H, many)
  {
    if Collides(H, few) {
      var x, y :| x in few && y in few && x != y && H(x) == H(y);
      assert x in many && y in many;
    } else {
      var x :| x in few && H(x) == GENESIS_HASH;
      assert x in many;
    }
  }

  /** The audited part of two rows agrees: links, hashes and what JSON shows of the content. */
  ghost predicate SameRow(a: Row, b: Row) {
    && a.prevHash == b.prevHash && a.rowHash == b.rowHash
    && SameOnWire(a.content, b.content)
  }

  ghost predicate SameHistory(a: seq<Row>, b: seq<Row>) {
    |a| == |b| && forall i | 0 <= i < |a| :: SameRow(a[i], b[i])
  }

  lemma IntactPrefix(H: Hash, rows: seq<Row>, n: nat)
    requires n <= |rows| && forall k | 0 <= k < n :: Linked(H, rows, k)
    ensures Intact(H, rows[..n])
  {
    forall k | 0 <= k < n ensures Linked(H, rows[..n], k) {
      assert Linked(H, rows, k);
      assert PrevOf(rows[..n], k) == PrevOf(rows, k);
    }
  }

  lemma PrevIsDigest(H: Hash, rows: seq<Row>, k: nat)
    requires k <= |rows| && forall j | 0 <= j < k :: Linked(H, rows, j)
    ensures |PrevOf(rows, k)| == 64
  {
    if k > 0 { assert Linked(H, rows, k - 1); }
  }

  /** A 64-character prefix leaves no doubt where the payload starts. */
  lemma RowTextUnambiguous(a: Row, b: Row)
    requires |a.prevHash| == |b.prevHash| == 64 && RowText(a) == RowText(b)
    ensures a.prevHash == b.prevHash && SameOnWire(a.content, b.content)
  {
    assert RowText(a)[..64] == a.prevHash && RowText(b)[..64] == b.prevHash;
    assert RowText(a)[64..] == CanonicalPayload(a.content);
    assert RowText(b)[64..] == CanonicalPayload(b.content);
    PayloadDeterminesFields(a.content, b.content);
  }

  lemma TextsOfPrefix(rows: seq<Row>, n: nat)
    requires n <= |rows|
    ensures Texts(rows[..n]) <= Texts(rows)
    ensures forall i | 0 <= i < |rows| :: RowText(rows[i]) in Texts(rows)
  {}

  /** The head hash commits to the whole history. */
  lemma {:induction false} HeadCommitsToHistory(H: Hash, a: seq<Row>, b: seq<Row>)
    requires Intact(H, a) && Intact(H, b) && Head(a) == Head(b)
    ensures SameHistory(a, b) || HashBroken(H, Texts(a) + Texts(b))
    decreases |a|
  {
    hide CanonicalPayload, SameOnWire;
    var texts := Texts(a) + Texts(b);
    if a != [] && b != [] {
      var n, m := |a| - 1, |b| - 1;
      assert Linked(H, a, n) && Linked(H, b, m);
      var x, y := RowText(a[n]), RowText(b[m]);
      assert x in texts && y in texts && H(x) == H(y);
      if x == y {
        PrevIsDigest(H, a, n);
        PrevIsDigest(H, b, m);
        RowTextUnambiguous(a[n], b[m]);
        IntactPrefix(H, a, n);
        IntactPrefix(H, b, m);
        HeadCommitsToHistory(H, a[..n], b[..m]);
        if SameHistory(a[..n], b[..m]) {
          forall i | 0 <= i < |a| ensures SameRow(a[i], b[i]) {
            if i < n { assert SameRow(a[..n][i], b[..m][i]); }
          }
        } else {
          TextsOfPrefix(a, n);
          TextsOfPrefix(b, m);
          HashBrokenMonotone(H, Texts(a[..n]) + Texts(b[..m]), texts);
        }
      }
    } else if a != [] {
      assert Linked(H, a, |a| - 1) && RowText(a[|a| - 1]) in texts;
    } else if b != [] {
      assert Linked(H, b, |b| - 1) && RowText(b[|b| - 1]) in texts;
    }
  }

  /** In an intact chain no two rows share a hash and none has the genesis hash. */
  lemma HashesDistinct(H: Hash, rows: seq<Row>, p: nat, q: nat)
    requires Intact(H, rows) && !HashBroken(H, Texts(rows)) && p < q <= |rows|
    ensures PrevOf(rows, p) != PrevOf(rows, q)
  {
    IntactPrefix(H, rows, p);
    IntactPrefix(H, rows, q);
    if PrevOf(rows, p) == PrevOf(rows, q) {
      assert Head(rows[..p]) == PrevOf(rows, p) && Head(rows[..q]) == PrevOf(rows, q);
      HeadCommitsToHistory(H, rows[..p], rows[..q]);
      TextsOfPrefix(rows, p);
      TextsOfPrefix(rows, q);
      HashBrokenMonotone(H, Texts(rows[..p]) + Texts(rows[..q]), Texts(rows));
    }
  }

  /**
   Deleting, reordering or repeating rows of an intact chain leaves a chain the
   verifier accepts exactly when what is left is a prefix: only the loss of a
   suffix goes unseen.
   */
  lemma RearrangementIntactIffPrefix(H: Hash, rows: seq<Row>, left: seq<Row>)
    requires Intact(H, rows) && !HashBroken(H, Texts(rows))
    requires forall r | r in left :: r in rows
    ensures Intact(H, left) <==> left <= rows
  {
    if left <= rows {
      IntactPrefix(H, rows, |left|);
      assert rows[..|left|] == left;
    }
    if Intact(H, left) {
      IntactSelectionIsPrefix(H, rows, left, |left|);
    }
  }

  lemma {:induction false} IntactSelectionIsPrefix(H: Hash, rows: seq<Row>, left: seq<Row>, n: nat)
    requires Intact(H, rows) && !HashBroken(H, Texts(rows)) && Intact(H, left)
    requires n <= |left| && forall r | r in left :: r in rows
    ensures n <= |rows| && left[..n] == rows[..n]
  {
    hide CanonicalPayload, HashBroken;
    if n > 0 {
      IntactSelectionIsPrefix(H, rows, left, n - 1);
      assert left[n - 1] in rows;
      var m :| 0 <= m < |rows| && rows[m] == left[n - 1];
      assert Linked(H, left, n - 1) && Linked(H, rows, m);
      assert PrevOf(left, n - 1) == PrevOf(rows, n - 1);
      if m < n - 1 { HashesDistinct(H, rows, m, n - 1); }
      if n - 1 < m { HashesDistinct(H, rows, n - 1, m); }
      assert left[..n] == left[..n - 1] + [left[n - 1]];
      assert rows[..n] == rows[..n - 1] + [rows[n - 1]];
    }
  }

  /** Cutting out rows i up to j, with rows left after the gap, is pinned to the row after it. */
  lemma GapPinned(H: Hash, rows: seq<Row>, i: nat, j: nat)
    requires Intact(H, rows) && !HashBroken(H, Texts(rows)) && i < j < |rows|
    ensures BreaksAt(H, rows[..i] + rows[j..], i)
    ensures (rows[..i] + rows[j..])[i] == rows[j]
  {
    var left := rows[..i] + rows[j..];
    forall k | 0 <= k < i ensures Linked(H, left, k) {
      assert Linked(H, rows, k);
      assert PrevOf(left, k) == PrevOf(rows, k);
    }
    assert Linked(H, rows, j);
    assert PrevOf(left, i) == PrevOf(rows, i);
    HashesDistinct(H, rows, i, j);
  }

  lemma EditChangesText(a: Row, b: Row)
    requires Storable(a.content) && Storable(b.content) && a.content != b.content
    requires |a.prevHash| == 64 && b.prevHash == a.prevHash
    ensures RowText(a) != RowText(b)
  {
    hide CanonicalPayload, Storable, SameOnWire;
    if RowText(a) == RowText(b) {
      RowTextUnambiguous(a, b);
      PayloadDeterminesFields(a.content, b.content);
      PayloadInjective(a.content, b.content);
    }
  }

  /**
   Editing the content of row k of an intact chain: the verifier stops exactly at
   row k, unless the old and the new text collide.
   */
  lemma EditPinned(H: Hash, rows: seq<Row>, k: nat, content: Content)
    requires Intact(H, rows) && k < |rows|
    requires Storable(rows[k].content) && Storable(content) && content != rows[k].content
    ensures var edited := rows[k := rows[k].(content := content)];
            BreaksAt(H, edited, k) || Collides(H, {RowText(rows[k]), RowText(edited[k])})
  {
    var edited := rows[k := rows[k].(content := content)];
    forall j | 0 <= j < k ensures Linked(H, edited, j) {
      assert Linked(H, rows, j);
      assert PrevOf(edited, j) == PrevOf(rows, j);
    }
    assert Linked(H, rows, k);
    PrevIsDigest(H, rows, k);
    var x, y := RowText(rows[k]), RowText(edited[k]);
    EditChangesText(rows[k], edited[k]);
    if Linked(H, edited, k) {
      assert x in {x, y} && y in {x, y} && H(x) == H(y);
    }
  }

  lemma HashOfText(H: Hash, r: Row, content: Content)
    ensures ComputeRowHash(H, r.prevHash, CanonicalPayload(content)) == H(RowText(r.(content := content)))
    ensures forall hash :: RowText(r.(content := content, rowHash := hash)) == RowText(r.(content := content))
  {}

  /** Row k with new content and the hash recomputed to match it. */
  function Rehashed(H: Hash, rows: seq<Row>, k: nat, content: Content): (edited: seq<Row>)
    requires k < |rows|
    ensures |edited| == |rows| && forall j | 0 <= j < |rows| && j != k :: edited[j] == rows[j]
  {
    rows[k := rows[k].(content := content, rowHash := ComputeRowHash(H, rows[k].prevHash, CanonicalPayload(content)))]
  }

  lemma RehashedLinked(H: Hash, rows: seq<Row>, k: nat, content: Content, j: nat)
    requires Intact(H, rows) && j <= k < |rows|
    ensures var edited := Rehashed(H, rows, k, content);
            Linked(H, edited, j) && edited[k].rowHash == H(RowText(edited[k]))
              && PrevOf(edited, k + 1) == edited[k].rowHash
  {
    hide CanonicalPayload, RowText;
    var edited := Rehashed(H, rows, k, content);
    HashOfText(H, rows[k], content);
    assert Linked(H, rows, j);
    assert PrevOf(edited, j) == PrevOf(rows, j);
  }

  /**
   An edit that recomputes the row's hash: the verifier stops at the row after it, and at the last
   row it sees nothing; but the head hash has changed. Otherwise the old and the new text collide.
   */
  lemma RehashedEditPinned(H: Hash, rows: seq<Row>, k: nat, content: Content)
    requires Intact(H, rows) && k < |rows|
    requires Storable(rows[k].content) && Storable(content) && content != rows[k].content
    ensures var edited := Rehashed(H, rows, k, content);
      || Collides(H, {RowText(rows[k]), RowText(edited[k])})
      || (if k + 1 < |rows| then BreaksAt(H, edited, k + 1) else Intact(H, edited) && Head(edited) != Head(rows))
  {
    hide CanonicalPayload, RowText, Storable;
    var edited := Rehashed(H, rows, k, content);
    var x, y := RowText(rows[k]), RowText(edited[k]);
    assert Linked(H, rows, k);
    PrevIsDigest(H, rows, k);
    EditChangesText(rows[k], edited[k]);
    forall j | 0 <= j <= k ensures Linked(H, edited, j) { RehashedLinked(H, rows, k, content, j); }
    RehashedLinked(H, rows, k, content, k);
    hide Rehashed;
    if H(x) == H(y) {
      assert x in {x, y} && y in {x, y};
    } else if k + 1 < |rows| {
      assert Linked(H, rows, k + 1);
      assert edited[k + 1] == rows[k + 1];
    }
  }

  /** Appending a correctly linked row keeps the chain intact. */
  lemma AppendKeepsIntact(H: Hash, rows: seq<Row>, r: Row)
    requires Intact(H, rows) && r.prevHash == Head(rows) && r.rowHash == H(RowText(r))
    ensures Intact(H, rows + [r]) && Head(rows + [r]) == r.rowHash
  {
    var longer := rows + [r];
    forall k | 0 <= k < |longer| ensures Linked(H, longer, k) {
      if k < |rows| {
        assert Linked(H, rows, k);
        assert PrevOf(longer, k) == PrevOf(rows, k);
      }
    }
  }
}
