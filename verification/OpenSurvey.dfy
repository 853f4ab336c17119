/**
 The open survey: fields per event, one answer per field and organization, and completion by
 counting. No constraint of the database keeps a second answer row out.
 */
module OpenSurvey {
  import opened Prelude

  type EventId = nat
  type OrgId = nat
  type FieldId = nat

  /** The id of a field or a response is its position: rows are added at the end and never removed. */
  datatype Field = Field(event: EventId, required: bool, active: bool)
  datatype Response = Response(field: FieldId, org: OrgId, value: Option<string>)

  /** The JSON object of a submission, in its order. */
  type Payload = p: seq<(FieldId, Option<string>)> | forall i, j :: 0 <= i < j < |p| ==> p[i].0 != p[j].0

  datatype SurveyError = UnknownFields

  predicate Open(fields: seq<Field>, event: EventId, f: FieldId) {
    f < |fields| && fields[f].event == event && fields[f].active
  }

  predicate Required(fields: seq<Field>, event: EventId, f: FieldId) {
    Open(fields, event, f) && fields[f].required
  }

  /** The row a dictionary keyed by field ends up with: the last one. */
  function LastRow(rows: seq<Response>, org: OrgId, f: FieldId): (r: Option<nat>)
    ensures r.Some? ==> r.value < |rows| && rows[r.value].org == org && rows[r.value].field == f
    ensures r.None? ==> forall i | 0 <= i < |rows| :: !(rows[i].org == org && rows[i].field == f)
  {
    if rows == [] then None
    else
      var n := |rows| - 1;
      if rows[n].org == org && rows[n].field == f then Some(n) else LastRow(rows[..n], org, f)
  }

  function Answer(rows: seq<Response>, org: OrgId, f: FieldId): Option<string> {
    match LastRow(rows, org, f) case None => None case Some(i) => rows[i].value
  }

  function UpsertOne(rows: seq<Response>, org: OrgId, f: FieldId, value: Option<string>): seq<Response> {
    match LastRow(rows, org, f)
    case Some(i) => rows[i := rows[i].(value := value)]
    case None => rows + [Response(f, org, value)]
  }

  function Upserted(rows: seq<Response>, org: OrgId, payload: seq<(FieldId, Option<string>)>): seq<Response> {
    if payload == [] then rows
    else
      var n := |payload| - 1;
      UpsertOne(Upserted(rows, org, payload[..n]), org, payload[n].0, payload[n].1)
  }

  // ---- completion -----------------------------------------------------------------------

  /** PostgreSQL's trim: spaces only, at both ends. */
  function Trim(s: string): string {
    if s == "" then "" else if s[0] == ' ' then Trim(s[1..]) else if s[|s| - 1] == ' ' then Trim(s[..|s| - 1]) else s
  }

  predicate Filled(value: Option<string>) { value.Some? && Trim(value.value) != "" }

  lemma {:induction false} FilledIff(s: string)
    ensures Filled(Some(s)) <==> exists i :: 0 <= i < |s| && s[i] != ' '
  {
    if s == "" {
    } else if s[0] == ' ' {
      FilledIff(s[1..]);
      forall i | 0 <= i < |s| && s[i] != ' ' ensures s[1..][i - 1] == s[i] {}
    } else if s[|s| - 1] == ' ' {
      FilledIff(s[..|s| - 1]);
      forall i | 0 <= i < |s| && s[i] != ' ' ensures s[..|s| - 1][i] == s[i] {}
    }
  }

  /** The rows the count of required answers runs over. */
  function RequiredAnswers(fields: seq<Field>, rows: seq<Response>, event: EventId, org: OrgId): set<nat> {
    set i | 0 <= i < |rows| && rows[i].org == org && Required(fields, event, rows[i].field) && Filled(rows[i].value)
  }

  function Answers(fields: seq<Field>, rows: seq<Response>, event: EventId, org: OrgId): set<nat> {
    set i | 0 <= i < |rows| && rows[i].org == org && Open(fields, event, rows[i].field) && Filled(rows[i].value)
  }

  function RequiredFields(fields: seq<Field>, event: EventId): set<FieldId> {
    set f | 0 <= f < |fields| && Required(fields, event, f)
  }

  function OpenFields(fields: seq<Field>, event: EventId): set<FieldId> {
    set f | 0 <= f < |fields| && Open(fields, event, f)
  }

  predicate Completed(fields: seq<Field>, rows: seq<Response>, event: EventId, org: OrgId) {
    |RequiredAnswers(fields, rows, event, org)| >= |RequiredFields(fields, event)|
  }

  /** At most one row for a field and an organization. */
  ghost predicate OneRowEach(rows: seq<Response>) {
    forall i, j | 0 <= i < j < |rows| :: !(rows[i].field == rows[j].field && rows[i].org == rows[j].org)
  }

  /** Every required field has a filled answer. */
  ghost predicate AllAnswered(fields: seq<Field>, rows: seq<Response>, event: EventId, org: OrgId) {
    forall f | Required(fields, event, f) :: Filled(Answer(rows, org, f))
  }

  /** Each filled row of the organization is the one its field's answer is taken from. */
  ghost predicate FilledRowsAnswer(rows: seq<Response>, org: OrgId) {
    forall i | 0 <= i < |rows| && rows[i].org == org && Filled(rows[i].value) ::
      LastRow(rows, org, rows[i].field) == Some(i)
  }

  /** Counting fields by rows: an injective image is as large as its source. */
  lemma {:induction false} ImageSize(rows: seq<Response>, org: OrgId, s: set<nat>, image: set<FieldId>)
    requires forall i | i in s :: i < |rows| && LastRow(rows, org, rows[i].field) == Some(i)
    requires image == set i | i in s :: rows[i].field
    ensures |image| == |s|
  {
    if i :| i in s {
      var rest := image - {rows[i].field};
      forall j | j in s - {i} ensures rows[j].field in rest {}
      assert rest == set j | j in s - {i} :: rows[j].field;
      ImageSize(rows, org, s - {i}, rest);
    }
  }

  lemma SubsetOfSameSize<T>(a: set<T>, b: set<T>)
    requires a <= b
    ensures |a| <= |b| && (|a| == |b| ==> a == b)
  {
    assert a + (b - a) == b && |a + (b - a)| == |a| + |b - a|;
    if |a| == |b| { assert b - a == {}; }
  }

  lemma OnlyRow(rows: seq<Response>, i: nat)
    requires OneRowEach(rows) && i < |rows|
    ensures LastRow(rows, rows[i].org, rows[i].field) == Some(i)
  {
  }

  /** Where every filled row answers, enough answers means every one of them. */
  lemma CountingIsRight(fields: seq<Field>, rows: seq<Response>, event: EventId, org: OrgId)
    requires FilledRowsAnswer(rows, org)
    ensures Completed(fields, rows, event, org) <==> AllAnswered(fields, rows, event, org)
  {
    hide Filled, LastRow;
    var s, required := RequiredAnswers(fields, rows, event, org), RequiredFields(fields, event);
    var image := set i | i in s :: rows[i].field;
    ImageSize(rows, org, s, image);
    SubsetOfSameSize(image, required);
    if AllAnswered(fields, rows, event, org) {
      forall f | f in required ensures f in image {
        assert Filled(Answer(rows, org, f));
        NoRowNotFilled();
        assert LastRow(rows, org, f).value in s;
      }
      assert image == required;
    }
    if Completed(fields, rows, event, org) {
      forall f | Required(fields, event, f) ensures Filled(Answer(rows, org, f)) {
        assert f in image;
        var i :| i in s && rows[i].field == f;
        assert LastRow(rows, org, f) == Some(i);
      }
    }
  }

  /** The fields an organization has answered. */
  ghost function AnsweredFields(fields: seq<Field>, rows: seq<Response>, event: EventId, org: OrgId): set<FieldId> {
    set f | 0 <= f < |fields| && Open(fields, event, f) && Filled(Answer(rows, org, f))
  }

  lemma AnswersCountFields(fields: seq<Field>, rows: seq<Response>, event: EventId, org: OrgId)
    requires OneRowEach(rows)
    ensures |Answers(fields, rows, event, org)| == |AnsweredFields(fields, rows, event, org)|
  {
    hide Filled, LastRow;
    var s, answered := Answers(fields, rows, event, org), AnsweredFields(fields, rows, event, org);
    var image := set i | i in s :: rows[i].field;
    forall i | 0 <= i < |rows| ensures LastRow(rows, rows[i].org, rows[i].field) == Some(i) { OnlyRow(rows, i); }
    ImageSize(rows, org, s, image);
    forall f | f in answered ensures f in image {
      NoRowNotFilled();
      assert LastRow(rows, org, f).value in s;
    }
    assert image == answered;
  }

  lemma NoRowNotFilled()
    ensures !Filled(None)
  {}

  /** The count stands for the "for all": with one row each, enough answers means every one of them. */
  lemma CompletedIffAllAnswered(fields: seq<Field>, rows: seq<Response>, event: EventId, org: OrgId)
    requires OneRowEach(rows)
    ensures Completed(fields, rows, event, org) <==> AllAnswered(fields, rows, event, org)
  {
    forall i | 0 <= i < |rows| && rows[i].org == org && Filled(rows[i].value)
      ensures LastRow(rows, org, rows[i].field) == Some(i)
    {
      OnlyRow(rows, i);
    }
    CountingIsRight(fields, rows, event, org);
  }

  // ---- where the count is wrong -------------------------------------------------------------

  /** The fields of a database that holds these rows. */
  ghost predicate HasFields(fields: seq<Field>, rows: seq<Response>) {
    forall r | r in rows :: r.field < |fields|
  }

  function Bound(rows: seq<Response>): (n: nat)
    ensures forall r | r in rows :: r.field < n
  {
    if rows == [] then 0
    else
      var n := |rows| - 1;
      assert rows == rows[..n] + [rows[n]];
      var m := Bound(rows[..n]);
      if rows[n].field < m then m else rows[n].field + 1
  }

  /** Fields 0 up to n of event 0, of which only those in `open` are active, and required. */
  function OnlyOpen(n: nat, open: set<FieldId>): (fields: seq<Field>)
    ensures |fields| == n && forall f: FieldId | f < n :: fields[f] == Field(0, true, f in open)
  {
    seq(n, f => Field(0, true, f in open))
  }

  lemma OnlyOpenRequired(n: nat, open: set<FieldId>)
    requires forall f | f in open :: f < n
    ensures RequiredFields(OnlyOpen(n, open), 0) == open
  {}

  /** A filled row that is not the answer of its field makes the count complete a survey with an open question. */
  lemma StrayRowMisleads(rows: seq<Response>, org: OrgId, i: nat)
    requires i < |rows| && rows[i].org == org && Filled(rows[i].value) && LastRow(rows, org, rows[i].field) != Some(i)
    ensures exists fields ::
              HasFields(fields, rows) && Completed(fields, rows, 0, org) && !AllAnswered(fields, rows, 0, org)
  {
    hide Filled;
    var f := rows[i].field;
    assert LastRow(rows, org, f).Some?;
    var j, g := LastRow(rows, org, f).value, Bound(rows);
    assert rows[i] in rows;
    var open := if Filled(rows[j].value) then {f, g} else {f};
    var fields := OnlyOpen(g + 1, open);
    OnlyOpenRequired(g + 1, open);
    var answers := RequiredAnswers(fields, rows, 0, org);
    assert Required(fields, 0, f);
    if Filled(rows[j].value) {
      assert {i, j} <= answers && |{i, j}| == 2 && |{f, g}| == 2;
      SubsetOfSameSize({i, j}, answers);
      assert Completed(fields, rows, 0, org);
      assert Required(fields, 0, g) && LastRow(rows, org, g) == None;
      NoRowNotFilled();
      assert !Filled(Answer(rows, org, g));
    } else {
      assert {i} <= answers;
      SubsetOfSameSize({i}, answers);
      assert Completed(fields, rows, 0, org);
      assert !Filled(Answer(rows, org, f));
    }
  }

  /**
   For given rows the completion flag of an organization is right for every survey exactly
   when each of its filled rows is the last of its field.
   */
  lemma FlagRightIff(rows: seq<Response>, org: OrgId)
    ensures (forall fields, event | HasFields(fields, rows) ::
               Completed(fields, rows, event, org) <==> AllAnswered(fields, rows, event, org))
       <==> FilledRowsAnswer(rows, org)
  {
    hide Completed, AllAnswered, HasFields;
    if FilledRowsAnswer(rows, org) {
      forall fields, event | HasFields(fields, rows)
        ensures Completed(fields, rows, event, org) <==> AllAnswered(fields, rows, event, org)
      {
        CountingIsRight(fields, rows, event, org);
      }
    } else {
      var i :| 0 <= i < |rows| && rows[i].org == org && Filled(rows[i].value)
        && LastRow(rows, org, rows[i].field) != Some(i);
      StrayRowMisleads(rows, org, i);
    }
  }

  // ---- the upsert -----------------------------------------------------------------------

  lemma {:induction false} AnswerElsewhere(
      rows: seq<Response>, org: OrgId, f: FieldId, value: Option<string>, o: OrgId, g: FieldId)
    requires (o, g) != (org, f)
    ensures LastRow(UpsertOne(rows, org, f, value), o, g) == LastRow(rows, o, g)
  {
    match LastRow(rows, org, f)
    case None => assert (rows + [Response(f, org, value)])[..|rows|] == rows;
    case Some(i) => LastRowIgnores(rows, i, value, o, g);
  }

  lemma {:induction false} LastRowIgnores(rows: seq<Response>, i: nat, value: Option<string>, o: OrgId, g: FieldId)
    requires i < |rows|
    ensures LastRow(rows[i := rows[i].(value := value)], o, g) == LastRow(rows, o, g)
  {
    var n := |rows| - 1;
    var changed := rows[i := rows[i].(value := value)];
    if i < n {
      assert changed[..n] == rows[..n][i := rows[i].(value := value)];
      LastRowIgnores(rows[..n], i, value, o, g);
    } else {
      assert changed[..n] == rows[..n];
    }
  }

  lemma UpsertOneAnswers(rows: seq<Response>, org: OrgId, f: FieldId, value: Option<string>, o: OrgId, g: FieldId)
    ensures Answer(UpsertOne(rows, org, f, value), o, g) == if o == org && g == f then value else Answer(rows, o, g)
    ensures OneRowEach(rows) ==> OneRowEach(UpsertOne(rows, org, f, value))
    ensures |rows| <= |UpsertOne(rows, org, f, value)|
    ensures forall i | 0 <= i < |rows| :: UpsertOne(rows, org, f, value)[i].(value := None) == rows[i].(value := None)
  {
    if (o, g) != (org, f) { AnswerElsewhere(rows, org, f, value, o, g); }
    match LastRow(rows, org, f) {
      case None =>
      case Some(i) => LastRowIgnores(rows, i, value, org, f);
    }
  }

  ghost predicate Mentions(payload: seq<(FieldId, Option<string>)>, f: FieldId) {
    exists i :: 0 <= i < |payload| && payload[i].0 == f
  }

  /** Everything a submission does not mention keeps its row and its answer. */
  lemma {:induction false} SubmissionLeavesOthers(
      rows: seq<Response>, org: OrgId, payload: Payload, o: OrgId, g: FieldId)
    requires o != org || !Mentions(payload, g)
    ensures LastRow(Upserted(rows, org, payload), o, g) == LastRow(rows, o, g)
    ensures Answer(Upserted(rows, org, payload), o, g) == Answer(rows, o, g)
  {
    hide UpsertOne, Answer, LastRow;
    if payload != [] {
      var n := |payload| - 1;
      var before := Upserted(rows, org, payload[..n]);
      if Mentions(payload[..n], g) {
        var i :| 0 <= i < n && payload[..n][i].0 == g;
        assert payload[i].0 == g;
      }
      SubmissionLeavesOthers(rows, org, payload[..n], o, g);
      assert o != org || payload[n].0 != g;
      UpsertOneAnswers(before, org, payload[n].0, payload[n].1, o, g);
      AnswerElsewhere(before, org, payload[n].0, payload[n].1, o, g);
    }
  }

  /** Everything it mentions is answered with its value. */
  lemma {:induction false} SubmissionStored(rows: seq<Response>, org: OrgId, payload: Payload, i: nat)
    requires i < |payload|
    ensures Answer(Upserted(rows, org, payload), org, payload[i].0) == payload[i].1
  {
    hide UpsertOne, Answer;
    var n := |payload| - 1;
    var before := Upserted(rows, org, payload[..n]);
    UpsertOneAnswers(before, org, payload[n].0, payload[n].1, org, payload[i].0);
    if i < n {
      SubmissionStored(rows, org, payload[..n], i);
      assert payload[..n][i] == payload[i];
    }
  }

  /** Rows keep their identity, and there is still one for each field and organization. */
  lemma {:induction false} SubmissionKeepsRows(rows: seq<Response>, org: OrgId, payload: seq<(FieldId, Option<string>)>)
    ensures OneRowEach(rows) ==> OneRowEach(Upserted(rows, org, payload))
    ensures |rows| <= |Upserted(rows, org, payload)|
    ensures forall i | 0 <= i < |rows| :: Upserted(rows, org, payload)[i].(value := None) == rows[i].(value := None)
  {
    hide UpsertOne, OneRowEach;
    if payload != [] {
      var n := |payload| - 1;
      SubmissionKeepsRows(rows, org, payload[..n]);
      UpsertOneAnswers(Upserted(rows, org, payload[..n]), org, payload[n].0, payload[n].1, org, payload[n].0);
    }
  }

  /** Keys are distinct, so the rows looked up before the loop are still the right ones inside it. */
  lemma LookupsStayValid(rows: seq<Response>, org: OrgId, payload: Payload, n: nat)
    requires n < |payload|
    ensures LastRow(Upserted(rows, org, payload[..n]), org, payload[n].0) == LastRow(rows, org, payload[n].0)
  {
    SubmissionLeavesOthers(rows, org, payload[..n], org, payload[n].0);
  }

  /** One turn of the loop. */
  lemma UpsertStep(rows: seq<Response>, org: OrgId, payload: Payload, n: nat)
    requires n < |payload|
    ensures var (f, value) := payload[n];
            var before := Upserted(rows, org, payload[..n]);
            match LastRow(rows, org, f)
            case Some(i) => (
              && i < |before|
              && Upserted(rows, org, payload[..n + 1]) == before[i := before[i].(value := value)])
            case None => Upserted(rows, org, payload[..n + 1]) == before + [Response(f, org, value)]
  {
    LookupsStayValid(rows, org, payload, n);
    assert payload[..n + 1][..n] == payload[..n];
  }

  // ---- two submissions at once ----------------------------------------------------------------

  /** The loop of a submission that looked its rows up in `seen`, over the table as it is by now. */
  function WrittenLate(
      seen: seq<Response>, rows: seq<Response>, org: OrgId, payload: seq<(FieldId, Option<string>)>): seq<Response>
    requires |seen| <= |rows|
    ensures |seen| <= |WrittenLate(seen, rows, org, payload)|
  {
    if payload == [] then rows
    else
      var n := |payload| - 1;
      var before := WrittenLate(seen, rows, org, payload[..n]);
      match LastRow(seen, org, payload[n].0)
      case Some(i) => before[i := before[i].(value := payload[n].1)]
      case None => before + [Response(payload[n].0, org, payload[n].1)]
  }

  ghost predicate HasRow(rows: seq<Response>, org: OrgId, f: FieldId) {
    exists i :: 0 <= i < |rows| && rows[i].org == org && rows[i].field == f
  }

  lemma HasRowIff(rows: seq<Response>, org: OrgId, f: FieldId)
    ensures HasRow(rows, org, f) <==> LastRow(rows, org, f).Some?
  {}

  lemma OneMoreResponse(rows: seq<Response>, r: Response)
    ensures OneRowEach(rows + [r]) <==> OneRowEach(rows) && !HasRow(rows, r.org, r.field)
    ensures forall o, f :: HasRow(rows + [r], o, f) <==> HasRow(rows, o, f) || (o == r.org && f == r.field)
  {
    var more := rows + [r];
    assert more[|rows|] == r && forall i | 0 <= i < |rows| :: more[i] == rows[i];
    if OneRowEach(more) {
      forall i, j | 0 <= i < j < |rows| ensures !(rows[i].field == rows[j].field && rows[i].org == rows[j].org) {
        assert more[i] == rows[i] && more[j] == rows[j];
      }
    }
    forall o, f | HasRow(rows, o, f) ensures HasRow(more, o, f) {
      var i :| 0 <= i < |rows| && rows[i].org == o && rows[i].field == f;
      assert more[i] == rows[i];
    }
  }

  lemma SameKeys(rows: seq<Response>, i: nat, value: Option<string>)
    requires i < |rows|
    ensures var changed := rows[i := rows[i].(value := value)];
      && (OneRowEach(changed) <==> OneRowEach(rows)) && forall o, f :: HasRow(changed, o, f) <==> HasRow(rows, o, f)
  {
    var changed := rows[i := rows[i].(value := value)];
    assert forall k | 0 <= k < |rows| :: changed[k].org == rows[k].org && changed[k].field == rows[k].field;
    forall o, f ensures HasRow(changed, o, f) <==> HasRow(rows, o, f) {
      if HasRow(rows, o, f) {
        var k :| 0 <= k < |rows| && rows[k].org == o && rows[k].field == f;
        assert changed[k].org == o && changed[k].field == f;
      }
    }
  }

  /** What a late write adds, and when it adds nothing twice. */
  lemma {:induction false} LateWrite(seen: seq<Response>, rows: seq<Response>, org: OrgId, payload: Payload)
    requires |seen| <= |rows| && OneRowEach(rows)
    ensures var end := WrittenLate(seen, rows, org, payload);
      && (forall f :: HasRow(end, org, f) <==> HasRow(rows, org, f) || (Mentions(payload, f) && !HasRow(seen, org, f)))
      && (OneRowEach(end) <==> forall f | Mentions(payload, f) && !HasRow(seen, org, f) :: !HasRow(rows, org, f))
  {
    hide OneRowEach, HasRow, LastRow;
    if payload != [] {
      var n := |payload| - 1;
      var f, v := payload[n].0, payload[n].1;
      var before := WrittenLate(seen, rows, org, payload[..n]);
      LateWrite(seen, rows, org, payload[..n]);
      HasRowIff(seen, org, f);
      MentionsMore(payload);
      match LastRow(seen, org, f) {
        case Some(i) => SameKeys(before, i, v);
        case None => OneMoreResponse(before, Response(f, org, v));
      }
    }
  }

  lemma MentionsMore(payload: Payload)
    requires payload != []
    ensures var n := |payload| - 1;
      && !Mentions(payload[..n], payload[n].0)
      && forall f :: Mentions(payload, f) <==> Mentions(payload[..n], f) || f == payload[n].0
  {
    var n := |payload| - 1;
    forall f | Mentions(payload[..n], f) ensures Mentions(payload, f) && f != payload[n].0 {
      var i :| 0 <= i < n && payload[..n][i].0 == f;
      assert payload[i].0 == f;
    }
    forall f | Mentions(payload, f) && f != payload[n].0 ensures Mentions(payload[..n], f) {
      var i :| 0 <= i < |payload| && payload[i].0 == f;
      assert payload[..n][i].0 == f;
    }
    assert payload[n].0 == payload[n].0;
  }

  /**
   Two submissions of one organization that both look up before either writes: a second row
   for some field comes about exactly when they share a field that had no row.
   */
  lemma AtOnceKeepsOneRowIff(rows: seq<Response>, org: OrgId, first: Payload, second: Payload)
    requires OneRowEach(rows)
    ensures |rows| <= |Upserted(rows, org, first)|
    ensures OneRowEach(WrittenLate(rows, Upserted(rows, org, first), org, second)) <==>
            forall f | Mentions(first, f) && Mentions(second, f) :: HasRow(rows, org, f)
  {
    hide OneRowEach, HasRow, Mentions, Upserted;
    SubmissionKeepsRows(rows, org, first);
    var middle := Upserted(rows, org, first);
    LateWrite(rows, middle, org, second);
    forall f ensures HasRow(middle, org, f) <==> HasRow(rows, org, f) || Mentions(first, f) {
      RowsAfter(rows, org, first, f);
    }
  }

  lemma RowsAfter(rows: seq<Response>, org: OrgId, payload: Payload, f: FieldId)
    ensures HasRow(Upserted(rows, org, payload), org, f) <==> HasRow(rows, org, f) || Mentions(payload, f)
  {
    var after := Upserted(rows, org, payload);
    SubmissionKeepsRows(rows, org, payload);
    if HasRow(rows, org, f) {
      var i :| 0 <= i < |rows| && rows[i].org == org && rows[i].field == f;
      assert after[i].(value := None) == rows[i].(value := None);
    }
    HasRowIff(after, org, f);
    HasRowIff(rows, org, f);
    if Mentions(payload, f) {
      SubmissionAddsRow(rows, org, payload, f);
    } else {
      SubmissionLeavesOthers(rows, org, payload, org, f);
    }
  }

  lemma {:induction false} SubmissionAddsRow(rows: seq<Response>, org: OrgId, payload: Payload, f: FieldId)
    requires Mentions(payload, f)
    ensures HasRow(Upserted(rows, org, payload), org, f)
  {
    hide OneRowEach, LastRow;
    var n := |payload| - 1;
    var before := Upserted(rows, org, payload[..n]);
    UpsertedHasRow(before, org, payload[n].0, payload[n].1, f);
    if f != payload[n].0 {
      MentionsMore(payload);
      SubmissionAddsRow(rows, org, payload[..n], f);
    }
  }

  lemma UpsertedHasRow(rows: seq<Response>, org: OrgId, f: FieldId, value: Option<string>, g: FieldId)
    ensures g == f || HasRow(rows, org, g) ==> HasRow(UpsertOne(rows, org, f, value), org, g)
  {
    match LastRow(rows, org, f) {
      case Some(i) =>
        SameKeys(rows, i, value);
        assert HasRow(rows, org, f);
      case None => OneMoreResponse(rows, Response(f, org, value));
    }
  }

  // ---- the service ----------------------------------------------------------------------

  /** One line of the fill view and of the overview. */
  datatype FillLine = FillLine(field: FieldId, required: bool, value: Option<string>)
  datatype OrgStatus = OrgStatus(org: OrgId, totalFields: nat, answeredFields: nat, completed: bool)

  class OpenSurveyService {
    var fields: seq<Field>
    var responses: seq<Response>

    constructor ()
      ensures fields == [] && responses == []
    {
      fields, responses := [], [];
    }

    method CreateField(event: EventId, required: bool) returns (id: FieldId)
      modifies this
      ensures fields == old(fields) + [Field(event, required, true)] && id == |old(fields)|
      ensures responses == old(responses)
    {
      id := |fields|;
      fields := fields + [Field(event, required, true)];
    }

    method UpdateField(id: FieldId, required: Option<bool>, active: Option<bool>) returns (found: bool)
      modifies this
      ensures found == (id < |old(fields)|) && responses == old(responses)
      ensures fields == FieldUpdated(old(fields), id, required, active)
    {
      if id >= |fields| { return false; }
      if required.Some? { fields := fields[id := fields[id].(required := required.value)]; }
      if active.Some? { fields := fields[id := fields[id].(active := active.value)]; }
      return true;
    }

    method DeactivateField(id: FieldId) returns (found: bool)
      modifies this
      ensures found == (id < |old(fields)|) && responses == old(responses)
      ensures fields == FieldUpdated(old(fields), id, None, Some(false))
    {
      if id >= |fields| { return false; }
      fields := fields[id := fields[id].(active := false)];
      return true;
    }

    /** A submission with one unknown field changes nothing. */
    method UpsertResponses(event: EventId, org: OrgId, payload: Payload) returns (result: Result<nat, SurveyError>)
      modifies this`responses
      ensures result.Err? <==> exists i :: 0 <= i < |payload| && !Open(fields, event, payload[i].0)
      ensures result.Err? ==> responses == old(responses)
      ensures result.Ok? ==> responses == Upserted(old(responses), org, payload) && result.value == |payload|
    {
      for i := 0 to |payload|
        invariant forall j | 0 <= j < i :: Open(fields, event, payload[j].0)
      {
        if !Open(fields, event, payload[i].0) { return Err(UnknownFields); }
      }
      hide Open, LastRow, UpsertOne;
      var existing := map i | 0 <= i < |payload| :: payload[i].0 := LastRow(responses, org, payload[i].0);
      for i := 0 to |payload|
        invariant responses == Upserted(old(responses), org, payload[..i])
      {
        var f, value := payload[i].0, payload[i].1;
        UpsertStep(old(responses), org, payload, i);
        match existing[f]
        case Some(row) => responses := responses[row := responses[row].(value := value)];
        case None => responses := responses + [Response(f, org, value)];
      }
      assert payload[..|payload|] == payload;
      return Ok(|payload|);
    }

    /** Every open field of the event with the organization's answer. */
    method GetOrgFillView(event: EventId, org: OrgId) returns (view: seq<FillLine>)
      ensures forall f: FieldId | Open(fields, event, f) ::
                FillLine(f, fields[f].required, Answer(responses, org, f)) in view
      ensures forall l | l in view ::
                Open(fields, event, l.field)
                  && l == FillLine(l.field, fields[l.field].required, Answer(responses, org, l.field))
      ensures |view| == |OpenFields(fields, event)|
    {
      view := [];
      ghost var seen: set<FieldId> := {};
      for f := 0 to |fields|
        invariant forall g: FieldId | g < f && Open(fields, event, g) ::
                    FillLine(g, fields[g].required, Answer(responses, org, g)) in view
        invariant forall l | l in view ::
                    Open(fields, event, l.field)
                      && l == FillLine(l.field, fields[l.field].required, Answer(responses, org, l.field))
        invariant seen == (set g | 0 <= g < f && Open(fields, event, g)) && |view| == |seen|
      {
        if fields[f].event == event && fields[f].active {
          view := view + [FillLine(f, fields[f].required, Answer(responses, org, f))];
          seen := seen + {f};
        }
      }
      assert seen == OpenFields(fields, event);
    }

    method OrgStatusOverview(event: EventId, orgs: seq<OrgId>) returns (overview: seq<OrgStatus>)
      ensures |overview| == |orgs|
      ensures forall i | 0 <= i < |orgs| ::
                overview[i]
                  == OrgStatus(orgs[i], |OpenFields(fields, event)|, |Answers(fields, responses, event, orgs[i])|,
                    Completed(fields, responses, event, orgs[i]))
      ensures OneRowEach(responses) ==> forall i | 0 <= i < |orgs| ::
                && (overview[i].completed <==> AllAnswered(fields, responses, event, orgs[i]))
                && overview[i].answeredFields == |AnsweredFields(fields, responses, event, orgs[i])|
    {
      var totalFields, requiredTotal := |OpenFields(fields, event)|, |RequiredFields(fields, event)|;
      overview := [];
      for i := 0 to |orgs|
        invariant |overview| == i
        invariant forall j | 0 <= j < i ::
                    overview[j]
                      == OrgStatus(orgs[j], totalFields, |Answers(fields, responses, event, orgs[j])|,
                        Completed(fields, responses, event, orgs[j]))
      {
        var answered := |Answers(fields, responses, event, orgs[i])|;
        var requiredAnswered := |RequiredAnswers(fields, responses, event, orgs[i])|;
        overview := overview + [OrgStatus(orgs[i], totalFields, answered, requiredAnswered >= requiredTotal)];
      }
      if OneRowEach(responses) {
        forall i | 0 <= i < |orgs|
          ensures overview[i].completed <==> AllAnswered(fields, responses, event, orgs[i])
          ensures overview[i].answeredFields == |AnsweredFields(fields, responses, event, orgs[i])|
        {
          CompletedIffAllAnswered(fields, responses, event, orgs[i]);
          AnswersCountFields(fields, responses, event, orgs[i]);
        }
      }
    }
  }

  function FieldUpdated(fields: seq<Field>, id: FieldId, required: Option<bool>, active: Option<bool>): (r: seq<Field>)
    ensures |r| == |fields|
  {
    if id >= |fields| then fields
    else
      var f := fields[id];
      fields[id := f.(required := if required.Some? then required.value else f.required,
                      active := if active.Some? then active.value else f.active)]
  }

  // ---- runs -----------------------------------------------------------------------------

  datatype Step =
    | Create(event: EventId, required: bool)
    | Update(id: FieldId, mandatory: Option<bool>, active: Option<bool>)
    | Submit(survey: EventId, org: OrgId, payload: Payload)

  datatype State = State(fields: seq<Field>, rows: seq<Response>)

  function Next(s: State, step: Step): State {
    match step
    case Create(event, required) => s.(fields := s.fields + [Field(event, required, true)])
    case Update(id, mandatory, active) => s.(fields := FieldUpdated(s.fields, id, mandatory, active))
    case Submit(event, org, payload) =>
      if forall i | 0 <= i < |payload| ::
        Open(s.fields, event, payload[i].0) then s.(rows := Upserted(s.rows, org, payload)) else s
  }

  function Run(steps: seq<Step>): State {
    if steps == [] then State([], []) else Next(Run(steps[..|steps| - 1]), steps[|steps| - 1])
  }

  /** In every run a field has at most one row per organization. */
  lemma {:induction false} RunsKeepOneRow(steps: seq<Step>)
    ensures OneRowEach(Run(steps).rows)
  {
    if steps != [] {
      var before, last := steps[..|steps| - 1], steps[|steps| - 1];
      RunsKeepOneRow(before);
      match last {
        case Submit(_, org, payload) => SubmissionKeepsRows(Run(before).rows, org, payload);
        case _ =>
      }
    }
  }

  /** So in every run the overview's flag says exactly that no required line of the fill view is blank. */
  lemma CompletedInEveryRun(steps: seq<Step>, event: EventId, org: OrgId)
    ensures var s := Run(steps); Completed(s.fields, s.rows, event, org) <==> AllAnswered(s.fields, s.rows, event, org)
  {
    RunsKeepOneRow(steps);
    CompletedIffAllAnswered(Run(steps).fields, Run(steps).rows, event, org);
  }

  /** Deactivating a field never takes a completion back. */
  lemma DeactivationKeepsCompletion(steps: seq<Step>, id: FieldId, event: EventId, org: OrgId)
    requires var s := Run(steps); Completed(s.fields, s.rows, event, org)
    ensures var s := Run(steps + [Update(id, None, Some(false))]); Completed(s.fields, s.rows, event, org)
  {
    var after := steps + [Update(id, None, Some(false))];
    assert after[..|after| - 1] == steps;
    CompletedInEveryRun(steps, event, org);
    CompletedInEveryRun(after, event, org);
    var s, t := Run(steps), Run(after);
    forall f | Required(t.fields, event, f) ensures Filled(Answer(t.rows, org, f)) {
      assert Required(s.fields, event, f);
    }
  }

  /**
   A deactivated field takes no more answers: whatever names it is refused and changes nothing; the answers given
   stay.
   */
  lemma DeactivatedRefuses(s: State, id: FieldId, event: EventId, org: OrgId, payload: Payload)
    requires id < |s.fields| && Mentions(payload, id)
    ensures var off := Next(s, Update(id, None, Some(false)));
            off.rows == s.rows && Next(off, Submit(event, org, payload)) == off
  {
    var i :| 0 <= i < |payload| && payload[i].0 == id;
    assert !Open(Next(s, Update(id, None, Some(false))).fields, event, payload[i].0);
  }

  /** An accepted submission of an organization never changes what another one has completed. */
  lemma SubmissionIsOwn(steps: seq<Step>, event: EventId, org: OrgId, payload: Payload, other: OrgId, survey: EventId)
    requires other != org
    ensures var s, t := Run(steps), Run(steps + [Submit(event, org, payload)]);
            Completed(t.fields, t.rows, survey, other) <==> Completed(s.fields, s.rows, survey, other)
  {
    var after := steps + [Submit(event, org, payload)];
    assert after[..|after| - 1] == steps;
    CompletedInEveryRun(steps, survey, other);
    CompletedInEveryRun(after, survey, other);
    forall f ensures Answer(Upserted(Run(steps).rows, org, payload), other, f) == Answer(Run(steps).rows, other, f) {
      SubmissionLeavesOthers(Run(steps).rows, org, payload, other, f);
    }
  }
}
