/** The target policy of form writes: the configuration validator, the gate that
    runs when a plan is made and again when it is applied, and the capabilities
    a target advertises. */
module WritePolicy {
  import opened Common

  datatype Operation = CreateEntry | UpdateEntry

  datatype AccessMode = ReadOnly | ReadWrite

  datatype Policy = Policy(
    allowAllForms: bool,
    allowAllFields: bool,
    allowedForms: seq<string>,
    allowedFieldsByForm: map<string, seq<string>>,
    allowAllWritableForms: bool,
    writableForms: seq<string>,
    creatable: FieldScope,
    updatable: FieldScope,
    allowAllSqlObjects: bool,
    allowedSqlObjects: seq<string>,
    allowFormReads: bool,
    allowSql: bool,
    accessMode: AccessMode,
    requireHumanApproval: bool,
    requireWriteReason: bool,
    sensitiveFields: seq<string>,
    sensitiveMarkers: seq<string>)

  /** The three settings that scope the fields of one write operation. */
  datatype FieldScope = FieldScope(
    allowAll: bool,
    allowAllForForms: seq<string>,
    fieldsByForm: map<string, seq<string>>)

  datatype WriteError = WriteDisabled | FormNotAllowed | ReasonRequired | FieldNotAllowed

  // ---------------------------------------------------------------- validator

  function Elements(s: seq<string>): set<string> {
    set x | x in s
  }

  function Folded(t: Text, names: seq<string>): (r: seq<string>)
    ensures |r| == |names|
  {
    seq(|names|, i requires 0 <= i < |names| => t.fold(names[i]))
  }

  predicate Unique(names: seq<string>) {
    forall i, j :: 0 <= i < j < |names| ==> names[i] != names[j]
  }

  /** A name equal to a sensitive field, or containing a marker, up to case folding. */
  predicate Sensitive(t: Text, p: Policy, field: string) {
    || t.fold(field) in Folded(t, p.sensitiveFields)
    || exists m :: m in Folded(t, p.sensitiveMarkers) && Contains(t.fold(field), m)
  }

  predicate FieldListValid(t: Text, p: Policy, fields: seq<string>) {
    && fields != []
    && Unique(Folded(t, fields))
    && forall f :: f in fields ==> !Sensitive(t, p, f)
  }

  function EffectiveWritableForms(p: Policy): seq<string> {
    if p.allowAllWritableForms && !p.allowAllForms then p.allowedForms else p.writableForms
  }

  /** One turn of the validator's loop over the two write scopes. */
  predicate ScopeValid(p: Policy, s: FieldScope) {
    var writes := p.accessMode.ReadWrite?;
    && !(s.allowAll && s.fieldsByForm.Keys != {})
    && !(s.allowAll && s.allowAllForForms != [])
    && (writes && p.allowAllWritableForms ==> s.allowAll)
    && (writes && !p.allowAllWritableForms ==>
          && !s.allowAll
          && Unique(s.allowAllForForms)
          && Elements(s.allowAllForForms) <= Elements(EffectiveWritableForms(p))
          && Elements(s.allowAllForForms) !! s.fieldsByForm.Keys
          && s.fieldsByForm.Keys + Elements(s.allowAllForForms) == Elements(EffectiveWritableForms(p)))
    && (!writes ==> s.fieldsByForm.Keys == {} && !s.allowAll && s.allowAllForForms == [])
  }

  /** `TargetPolicyConfig.validate_allowlists`: true when no check raises. */
  predicate Accepted(t: Text, p: Policy) {
    var writes := p.accessMode.ReadWrite?;
    && (p.allowSql ==> p.allowAllSqlObjects || p.allowedSqlObjects != [])
    && !(p.allowAllSqlObjects && p.allowedSqlObjects != [])
    && (p.allowAllSqlObjects ==> p.allowSql)
    && (writes ==> p.allowAllWritableForms || p.writableForms != [])
    && !(p.allowAllWritableForms && p.writableForms != [])
    && (writes && p.allowAllWritableForms ==> p.allowAllForms || p.allowedForms != [])
    && (writes ==> p.requireHumanApproval)
    && (writes ==> p.requireWriteReason)
    && ScopeValid(p, p.creatable)
    && ScopeValid(p, p.updatable)
    && (!writes ==> p.writableForms == [] && !p.allowAllWritableForms)
    && (p.writableForms != [] && !p.allowAllForms ==> Elements(p.writableForms) <= Elements(p.allowedForms))
    && !(p.allowAllForms && p.allowedForms != [])
    && !(p.allowAllFields && p.allowedFieldsByForm.Keys != {})
    && (!p.allowAllForms ==> p.allowedFieldsByForm.Keys <= Elements(p.allowedForms))
    && Unique(Folded(t, p.sensitiveMarkers))
    && (forall form :: form in p.allowedFieldsByForm ==> FieldListValid(t, p, p.allowedFieldsByForm[form]))
    && (forall form :: form in p.creatable.fieldsByForm ==> FieldListValid(t, p, p.creatable.fieldsByForm[form]))
    && (forall form :: form in p.updatable.fieldsByForm ==> FieldListValid(t, p, p.updatable.fieldsByForm[form]))
  }

  /** A scope of an accepted policy opens each writable form in exactly one way. */
  ghost predicate ScopeSound(p: Policy, s: FieldScope) {
    var listed := exists form :: form in s.fieldsByForm;
    && (s.allowAll ==> !listed && |s.allowAllForForms| == 0)
    && (p.accessMode == ReadOnly ==> !s.allowAll && !listed && |s.allowAllForForms| == 0)
    && (p.accessMode == ReadWrite ==> (s.allowAll <==> p.allowAllWritableForms))
    && (p.accessMode == ReadWrite && !p.allowAllWritableForms ==>
          && (forall i, j :: 0 <= i < j < |s.allowAllForForms| ==> s.allowAllForForms[i] != s.allowAllForForms[j])
          && (forall form :: form in p.writableForms <==> form in s.allowAllForForms || form in s.fieldsByForm)
          && forall form :: form in s.allowAllForForms ==> form !in s.fieldsByForm)
  }

  /** A field list is not empty, names nothing twice, and nothing sensitive. */
  ghost predicate ListSound(t: Text, p: Policy, fields: seq<string>) {
    && |fields| > 0
    && (forall i, j :: 0 <= i < j < |fields| ==> t.fold(fields[i]) != t.fold(fields[j]))
    && forall i :: 0 <= i < |fields| ==> !Sensitive(t, p, fields[i])
  }

  /** What an operator may rely on, and has to provide: the validator accepts exactly the policies whose
      writes need approval and a reason, whose allow-all switches stand beside no list, whose write scopes
      lie within the readable forms and open each writable form one way, and whose lists are sound. */
  lemma AcceptedExactlyWhenSound(t: Text, p: Policy)
    ensures Accepted(t, p) <==>
              && (p.accessMode == ReadWrite ==> p.requireHumanApproval && p.requireWriteReason)
              && (p.accessMode == ReadWrite ==> p.allowAllWritableForms || |p.writableForms| > 0)
              && (p.accessMode == ReadOnly ==> !p.allowAllWritableForms && |p.writableForms| == 0)
              && (p.allowAllForms ==> |p.allowedForms| == 0)
              && (p.allowAllFields ==> forall form :: form !in p.allowedFieldsByForm)
              && (p.allowAllWritableForms ==> |p.writableForms| == 0 && (p.allowAllForms || |p.allowedForms| > 0))
              && (forall form :: form in p.writableForms || form in p.allowedFieldsByForm ==> p.allowAllForms || form in p.allowedForms)
              && (p.allowAllSqlObjects ==> p.allowSql && |p.allowedSqlObjects| == 0)
              && (p.allowSql ==> p.allowAllSqlObjects || |p.allowedSqlObjects| > 0)
              && ScopeSound(p, p.creatable) && ScopeSound(p, p.updatable)
              && (forall i, j :: 0 <= i < j < |p.sensitiveMarkers| ==> t.fold(p.sensitiveMarkers[i]) != t.fold(p.sensitiveMarkers[j]))
              && (forall form :: form in p.allowedFieldsByForm ==> ListSound(t, p, p.allowedFieldsByForm[form]))
              && (forall form :: form in p.creatable.fieldsByForm ==> ListSound(t, p, p.creatable.fieldsByForm[form]))
              && (forall form :: form in p.updatable.fieldsByForm ==> ListSound(t, p, p.updatable.fieldsByForm[form]))
  {
    hide Sensitive, FieldListValid, ListSound, ScopeValid, ScopeSound;
    if p.allowAllWritableForms ==> |p.writableForms| == 0 {
      ScopesAgree(p, p.creatable);
      ScopesAgree(p, p.updatable);
    }
    ListsAgree(t, p);
    assert forall i, j :: 0 <= i < j < |p.sensitiveMarkers| ==>
      (t.fold(p.sensitiveMarkers[i]) == t.fold(p.sensitiveMarkers[j])
       <==> Folded(t, p.sensitiveMarkers)[i] == Folded(t, p.sensitiveMarkers)[j]);
    assert forall form :: form in Elements(p.writableForms) <==> form in p.writableForms;
    assert forall form :: form in Elements(p.allowedForms) <==> form in p.allowedForms;
    assert forall form :: form in p.allowedFieldsByForm.Keys <==> form in p.allowedFieldsByForm;
  }

  lemma ScopesAgree(p: Policy, s: FieldScope)
    requires p.allowAllWritableForms ==> |p.writableForms| == 0
    ensures ScopeValid(p, s) <==> ScopeSound(p, s)
  {
    assert forall form :: form in s.fieldsByForm.Keys <==> form in s.fieldsByForm;
    assert forall form :: form in Elements(s.allowAllForForms) <==> form in s.allowAllForForms;
    assert forall form :: form in Elements(p.writableForms) <==> form in p.writableForms;
  }

  lemma ListsAgree(t: Text, p: Policy)
    ensures forall fields: seq<string> :: FieldListValid(t, p, fields) <==> ListSound(t, p, fields)
  {
    hide Sensitive;
    forall fields: seq<string>
      ensures FieldListValid(t, p, fields) <==> ListSound(t, p, fields)
    {
      assert forall i :: 0 <= i < |fields| ==> Folded(t, fields)[i] == t.fold(fields[i]);
    }
  }

  /** A name is sensitive exactly when it is a listed one or has a marker somewhere in it, up to case. */
  lemma SensitiveExactly(t: Text, p: Policy, field: string)
    ensures Sensitive(t, p, field) <==>
              || (exists i :: 0 <= i < |p.sensitiveFields| && t.fold(p.sensitiveFields[i]) == t.fold(field))
              || (exists i, a, b :: 0 <= i < |p.sensitiveMarkers| && t.fold(field) == a + t.fold(p.sensitiveMarkers[i]) + b)
  {
    var fields, markers := Folded(t, p.sensitiveFields), Folded(t, p.sensitiveMarkers);
    assert forall i :: 0 <= i < |fields| ==> fields[i] == t.fold(p.sensitiveFields[i]);
    assert forall i :: 0 <= i < |markers| ==> markers[i] == t.fold(p.sensitiveMarkers[i]);
    forall i | 0 <= i < |markers|
      ensures Contains(t.fold(field), markers[i]) <==> exists a, b :: t.fold(field) == a + markers[i] + b
    {
      ContainsMeansBetween(t.fold(field), markers[i]);
    }
    hide Contains;
    if i, a, b :| 0 <= i < |p.sensitiveMarkers| && t.fold(field) == a + t.fold(p.sensitiveMarkers[i]) + b {
      assert markers[i] in markers;
    }
    if m :| m in markers && Contains(t.fold(field), m) {
      var i :| 0 <= i < |markers| && markers[i] == m;
      var a, b :| t.fold(field) == a + markers[i] + b;
    }
  }

  lemma ContainsMeansBetween(s: string, sub: string)
    ensures Contains(s, sub) <==> exists a, b :: s == a + sub + b
  {
    if i :| 0 <= i <= |s| && OccursAt(s, sub, i) {
      assert s == s[..i] + sub + s[i + |sub|..];
    }
    if a, b :| s == a + sub + b {
      assert OccursAt(s, sub, |a|);
    }
  }

  // --------------------------------------------------------------- enforcement

  function Scope(p: Policy, op: Operation): FieldScope {
    match op
    case CreateEntry => p.creatable
    case UpdateEntry => p.updatable
  }

  /** The dictionary `{field.casefold(): field}` looked up: the last listed name that folds alike. */
  function Spelling(t: Text, listed: seq<string>, field: string): (r: Option<string>)
    ensures r.Some? ==> r.value in listed && t.fold(r.value) == t.fold(field)
    ensures r.None? <==> forall f :: f in listed ==> t.fold(f) != t.fold(field)
  {
    if listed == [] then None
    else if t.fold(listed[|listed| - 1]) == t.fold(field) then Some(listed[|listed| - 1])
    else Spelling(t, listed[..|listed| - 1], field)
  }

  /** The dictionary comprehension that writes every field under its listed spelling. */
  function Respell(t: Text, listed: seq<string>, values: Dict): Dict
    requires forall i :: 0 <= i < |values| ==> Spelling(t, listed, values[i].0).Some?
  {
    if values == [] then []
    else
      var last := values[|values| - 1];
      Put(Respell(t, listed, values[..|values| - 1]), Spelling(t, listed, last.0).value, last.1)
  }

  function ListedFields(p: Policy, op: Operation, form: string): seq<string> {
    if form in Scope(p, op).fieldsByForm then Scope(p, op).fieldsByForm[form] else []
  }

  predicate AllFieldsAllowed(p: Policy, op: Operation, form: string) {
    Scope(p, op).allowAll || form in Scope(p, op).allowAllForForms
  }

  /** `_enforce_write` */
  function EnforceWrite(t: Text, p: Policy, op: Operation, form: string, values: Dict, reason: string)
    : Result<Dict, WriteError>
  {
    if p.accessMode != ReadWrite then Err(WriteDisabled)
    else if !(p.allowAllForms || form in p.allowedForms)
         || !(p.allowAllWritableForms || form in p.writableForms) then Err(FormNotAllowed)
    else if p.requireWriteReason && t.blank(reason) then Err(ReasonRequired)
    else if exists i :: 0 <= i < |values| && Sensitive(t, p, values[i].0) then Err(FieldNotAllowed)
    else if AllFieldsAllowed(p, op, form) then Ok(values)
    else if exists i :: 0 <= i < |values| && Spelling(t, ListedFields(p, op, form), values[i].0).None? then
      Err(FieldNotAllowed)
    else Ok(Respell(t, ListedFields(p, op, form), values))
  }

  /** Why a write is refused, whatever the policy: each error with its exact cause, the earlier ones first. */
  lemma EnforceWriteRefusals(t: Text, p: Policy, op: Operation, form: string, values: Dict, reason: string)
    ensures var r := EnforceWrite(t, p, op, form, values, reason);
            var scope := if op == CreateEntry then p.creatable else p.updatable;
            var readable := p.allowAllForms || form in p.allowedForms;
            var writable := p.allowAllWritableForms || form in p.writableForms;
            var excused := !p.requireWriteReason || !t.blank(reason);
            var open := p.accessMode == ReadWrite && readable && writable;
            && (r == Err(WriteDisabled) <==> p.accessMode == ReadOnly)
            && (r == Err(FormNotAllowed) <==> p.accessMode == ReadWrite && !(readable && writable))
            && (r == Err(ReasonRequired) <==> open && !excused)
            && (r == Err(FieldNotAllowed) <==>
                  && open && excused
                  && exists i :: 0 <= i < |values| && (Sensitive(t, p, values[i].0) || !OpenTo(t, scope, form, values[i].0)))
  {
    hide Sensitive, Spelling, Respell;
    var scope := if op == CreateEntry then p.creatable else p.updatable;
    forall i | 0 <= i < |values|
      ensures OpenTo(t, scope, form, values[i].0) <==>
                AllFieldsAllowed(p, op, form) || Spelling(t, ListedFields(p, op, form), values[i].0).Some?
    {
      SpellingIsListed(t, ListedFields(p, op, form), values[i].0);
    }
  }

  /** Of several listed names that differ in case only, a write gets the last one's spelling. */
  lemma {:induction false} LastSpellingWins(t: Text, listed: seq<string>, field: string) returns (k: nat)
    requires Spelling(t, listed, field).Some?
    ensures k < |listed| && Spelling(t, listed, field) == Some(listed[k]) && t.fold(listed[k]) == t.fold(field)
    ensures forall j :: k < j < |listed| ==> t.fold(listed[j]) != t.fold(field)
  {
    k := |listed| - 1;
    if t.fold(listed[k]) != t.fold(field) {
      k := LastSpellingWins(t, listed[..k], field);
    }
  }

  /** The scope opens the field of the form: under an allow-all switch, or by a listed name up to case. */
  ghost predicate OpenTo(t: Text, s: FieldScope, form: string, field: string) {
    s.allowAll || form in s.allowAllForForms
    || (form in s.fieldsByForm && exists f :: f in s.fieldsByForm[form] && t.fold(f) == t.fold(field))
  }

  lemma SpellingIsListed(t: Text, listed: seq<string>, field: string)
    ensures Spelling(t, listed, field).Some? <==> exists f :: f in listed && t.fold(f) == t.fold(field)
  {
  }

  // ---------------------------------------------------------------- properties

  /** Every key already carries the spelling the policy lists for it. */
  ghost predicate WellSpelled(t: Text, listed: seq<string>, values: Dict) {
    forall i :: 0 <= i < |values| ==> Spelling(t, listed, values[i].0) == Some(values[i].0)
  }

  lemma SpellingIsStable(t: Text, listed: seq<string>, field: string)
    requires Spelling(t, listed, field).Some?
    ensures Spelling(t, listed, Spelling(t, listed, field).value) == Spelling(t, listed, field)
  {
    if t.fold(listed[|listed| - 1]) != t.fold(field) {
      SpellingIsStable(t, listed[..|listed| - 1], field);
    }
  }

  lemma {:induction false} RespellResult(t: Text, listed: seq<string>, values: Dict)
    requires forall i :: 0 <= i < |values| ==> Spelling(t, listed, values[i].0).Some?
    ensures var out := Respell(t, listed, values);
            && DistinctKeys(out)
            && WellSpelled(t, listed, out)
            && forall e :: e in out ==> exists i :: 0 <= i < |values| && t.fold(values[i].0) == t.fold(e.0) && values[i].1 == e.1
  {
    if values != [] {
      var front, last := values[..|values| - 1], values[|values| - 1];
      RespellResult(t, listed, front);
      var before := Respell(t, listed, front);
      var key := Spelling(t, listed, last.0).value;
      PutKeepsShape(before, key, last.1);
      SpellingIsStable(t, listed, last.0);
      var out := Respell(t, listed, values);
      forall i | 0 <= i < |out|
        ensures Spelling(t, listed, out[i].0) == Some(out[i].0)
      {
        assert out[i] in out;
      }
      forall e | e in out
        ensures exists i :: 0 <= i < |values| && t.fold(values[i].0) == t.fold(e.0) && values[i].1 == e.1
      {
        if e == (key, last.1) {
          assert values[|values| - 1] == last;
        } else {
          var i :| 0 <= i < |front| && t.fold(front[i].0) == t.fold(e.0) && front[i].1 == e.1;
          assert values[i] == front[i];
        }
      }
    }
  }

  lemma {:induction false} RespellOfWellSpelled(t: Text, listed: seq<string>, values: Dict)
    requires WellSpelled(t, listed, values) && DistinctKeys(values)
    ensures Respell(t, listed, values) == values
  {
    if values != [] {
      var front, last := values[..|values| - 1], values[|values| - 1];
      RespellOfWellSpelled(t, listed, front);
      PutNew(front, last.0, last.1);
      assert values == front + [last];
    }
  }

  ghost predicate FoldDistinct(t: Text, d: Dict) {
    forall i, j :: 0 <= i < j < |d| ==> t.fold(d[i].0) != t.fold(d[j].0)
  }

  /** Same fields in the same order with the same values, up to the case of the names. */
  ghost predicate SameUpToSpelling(t: Text, a: Dict, b: Dict) {
    && |a| == |b|
    && forall i :: 0 <= i < |a| ==> t.fold(a[i].0) == t.fold(b[i].0) && a[i].1 == b[i].1
  }

  lemma {:induction false} RespellKeepsFields(t: Text, listed: seq<string>, values: Dict)
    requires forall i :: 0 <= i < |values| ==> Spelling(t, listed, values[i].0).Some?
    requires FoldDistinct(t, values)
    ensures SameUpToSpelling(t, Respell(t, listed, values), values)
  {
    if values != [] {
      var front, last := values[..|values| - 1], values[|values| - 1];
      RespellKeepsFields(t, listed, front);
      var before := Respell(t, listed, front);
      var key := Spelling(t, listed, last.0).value;
      forall i | 0 <= i < |before|
        ensures before[i].0 != key
      {
        assert t.fold(before[i].0) == t.fold(front[i].0) == t.fold(values[i].0);
      }
      PutNew(before, key, last.1);
    }
  }

  /** Respelling a field keeps it as sensitive as it was. */
  lemma RespelledStayAllowed(t: Text, p: Policy, listed: seq<string>, values: Dict)
    requires forall i :: 0 <= i < |values| ==> Spelling(t, listed, values[i].0).Some?
    requires forall i :: 0 <= i < |values| ==> !Sensitive(t, p, values[i].0)
    ensures forall e :: e in Respell(t, listed, values) ==> !Sensitive(t, p, e.0)
  {
    hide Spelling, Respell, Sensitive;
    RespellResult(t, listed, values);
    forall e | e in Respell(t, listed, values)
      ensures !Sensitive(t, p, e.0)
    {
      var k :| 0 <= k < |values| && t.fold(values[k].0) == t.fold(e.0) && values[k].1 == e.1;
      FoldDecidesSensitivity(t, p, values[k].0, e.0);
    }
  }

  lemma RespelledIsStable(t: Text, listed: seq<string>, values: Dict)
    requires forall i :: 0 <= i < |values| ==> Spelling(t, listed, values[i].0).Some?
    ensures WellSpelled(t, listed, Respell(t, listed, values))
    ensures Respell(t, listed, Respell(t, listed, values)) == Respell(t, listed, values)
  {
    hide Spelling, Respell;
    RespellResult(t, listed, values);
    RespellOfWellSpelled(t, listed, Respell(t, listed, values));
  }

  /** Running the gate on its own output changes nothing, so what the second run sends
      is what the first run recorded for review. */
  lemma EnforceWriteIsIdempotent(t: Text, p: Policy, op: Operation, form: string, values: Dict, reason: string)
    requires EnforceWrite(t, p, op, form, values, reason).Ok?
    ensures var out := EnforceWrite(t, p, op, form, values, reason).value;
            EnforceWrite(t, p, op, form, out, reason) == Ok(out)
  {
    hide Spelling, Respell, Sensitive, ListedFields;
    if !AllFieldsAllowed(p, op, form) {
      var listed := ListedFields(p, op, form);
      RespelledStayAllowed(t, p, listed, values);
      RespelledIsStable(t, listed, values);
    }
  }

  lemma OccursTwice(d: Dict, i: int, j: int)
    requires 0 <= i < j < |d| && d[i] == d[j]
    ensures multiset(d)[d[i]] >= 2
  {
    assert d == d[..j] + [d[j]] + d[j + 1..];
    assert d[i] == d[..j][i] && d[i] in multiset(d[..j]);
  }

  lemma {:induction false} OccursOnce(d: Dict, e: (string, Scalar))
    requires DistinctKeys(d)
    ensures multiset(d)[e] <= 1
  {
    if d != [] {
      var front, last := d[..|d| - 1], d[|d| - 1];
      OccursOnce(front, e);
      assert d == front + [last];
      assert last !in front by {
        forall i | 0 <= i < |front|
          ensures front[i] != last
        {
          assert d[i] == front[i];
        }
      }
    }
  }

  /** Reordering the entries of a dictionary keeps its names distinct up to case. */
  lemma ReorderedFoldDistinct(t: Text, a: Dict, b: Dict)
    requires multiset(a) == multiset(b) && FoldDistinct(t, b)
    ensures FoldDistinct(t, a)
  {
    forall i, j | 0 <= i < j < |a|
      ensures t.fold(a[i].0) != t.fold(a[j].0)
    {
      assert a[i] in multiset(a) && a[j] in multiset(a);
      var k :| 0 <= k < |b| && b[k] == a[i];
      var l :| 0 <= l < |b| && b[l] == a[j];
      if k == l {
        OccursTwice(a, i, j);
        OccursOnce(b, b[k]);
      }
    }
  }

  /** The gate also leaves its own output alone when its entries come back in another order. */
  lemma EnforceWriteOfReordered(t: Text, p: Policy, op: Operation, form: string, a: Dict, b: Dict, reason: string)
    requires multiset(a) == multiset(b) && FoldDistinct(t, b)
    requires EnforceWrite(t, p, op, form, b, reason) == Ok(b)
    ensures EnforceWrite(t, p, op, form, a, reason) == Ok(a)
  {
    var listed := ListedFields(p, op, form);
    ReorderedFoldDistinct(t, a, b);
    if !AllFieldsAllowed(p, op, form) {
      RespellResult(t, listed, b);
      ReorderedEntries(t, p, listed, a, b);
      RespellOfWellSpelled(t, listed, a);
    } else {
      ReorderedEntries(t, p, [], a, b);
    }
  }

  lemma ReorderedEntries(t: Text, p: Policy, listed: seq<string>, a: Dict, b: Dict)
    requires multiset(a) == multiset(b)
    requires forall k :: 0 <= k < |b| ==> !Sensitive(t, p, b[k].0)
    ensures forall i :: 0 <= i < |a| ==> !Sensitive(t, p, a[i].0)
    ensures WellSpelled(t, listed, b) ==> WellSpelled(t, listed, a)
  {
    hide Sensitive, Spelling;
    forall i | 0 <= i < |a|
      ensures exists k :: 0 <= k < |b| && b[k] == a[i]
    {
      assert a[i] in multiset(a);
    }
  }

  /** Whatever the policy, the gate sends each requested field exactly once with its
      requested value, and never a sensitive one. */
  lemma EnforceWriteKeepsFields(t: Text, p: Policy, op: Operation, form: string, values: Dict, reason: string)
    requires FoldDistinct(t, values)
    requires EnforceWrite(t, p, op, form, values, reason).Ok?
    ensures var out := EnforceWrite(t, p, op, form, values, reason).value;
            && SameUpToSpelling(t, out, values)
            && FoldDistinct(t, out)
            && forall i :: 0 <= i < |out| ==> !Sensitive(t, p, out[i].0)
  {
    var out := EnforceWrite(t, p, op, form, values, reason).value;
    if !AllFieldsAllowed(p, op, form) {
      RespellKeepsFields(t, ListedFields(p, op, form), values);
    }
    forall i | 0 <= i < |out|
      ensures !Sensitive(t, p, out[i].0)
    {
      assert !Sensitive(t, p, values[i].0);
    }
  }

  /** The forms an accepted read-write policy opens for writing. */
  predicate WritableForm(p: Policy, form: string) {
    form in EffectiveWritableForms(p) || (p.allowAllWritableForms && p.allowAllForms)
  }

  /** The fields it opens on a form: listed ones, or every non-sensitive one under allow-all. */
  predicate WritableField(t: Text, p: Policy, op: Operation, form: string, field: string) {
    if AllFieldsAllowed(p, op, form) then !Sensitive(t, p, field)
    else exists f :: f in ListedFields(p, op, form) && t.fold(f) == t.fold(field)
  }

  lemma FoldDecidesSensitivity(t: Text, p: Policy, a: string, b: string)
    requires t.fold(a) == t.fold(b)
    ensures Sensitive(t, p, a) == Sensitive(t, p, b)
  {
  }

  /** An accepted policy has no dead entries and no hidden ones: the gate passes exactly the
      writes to its writable forms, with a reason, that name only its writable fields. */
  lemma AcceptedPolicyIsExactlyEnforced(t: Text, p: Policy, op: Operation, form: string, values: Dict, reason: string)
    requires Accepted(t, p) && p.accessMode == ReadWrite
    ensures EnforceWrite(t, p, op, form, values, reason).Ok?
       <==> && WritableForm(p, form)
            && !t.blank(reason)
            && forall i :: 0 <= i < |values| ==> WritableField(t, p, op, form, values[i].0)
  {
    assert ScopeValid(p, Scope(p, op));
    var inForms := (p.allowAllForms || form in p.allowedForms) && (p.allowAllWritableForms || form in p.writableForms);
    assert form in p.writableForms ==> form in Elements(p.writableForms);
    assert form in p.allowedForms <==> form in Elements(p.allowedForms);
    assert inForms <==> WritableForm(p, form);
    var listed := ListedFields(p, op, form);
    forall i | 0 <= i < |values|
      ensures WritableField(t, p, op, form, values[i].0) <==>
                && !Sensitive(t, p, values[i].0)
                && (AllFieldsAllowed(p, op, form) || Spelling(t, listed, values[i].0).Some?)
    {
      if !AllFieldsAllowed(p, op, form) && Spelling(t, listed, values[i].0).Some? {
        var f := Spelling(t, listed, values[i].0).value;
        FoldDecidesSensitivity(t, p, f, values[i].0);
        assert FieldListValid(t, p, listed);
      }
    }
  }

  /** Every writable form has at least one field that both write operations can set, unless
      the form is open to every non-sensitive field. */
  lemma EveryWritableFormHasAField(t: Text, p: Policy, op: Operation, form: string)
    requires Accepted(t, p) && p.accessMode == ReadWrite && WritableForm(p, form)
    ensures AllFieldsAllowed(p, op, form)
         || exists f :: f in ListedFields(p, op, form) && WritableField(t, p, op, form, f)
  {
    var s := Scope(p, op);
    assert ScopeValid(p, s);
    if !AllFieldsAllowed(p, op, form) {
      assert form in Elements(EffectiveWritableForms(p));
      assert form !in Elements(s.allowAllForForms);
      assert form in s.fieldsByForm;
      var f := s.fieldsByForm[form][0];
      assert f in ListedFields(p, op, form);
    }
  }

  // -------------------------------------------------------- advertised abilities

  datatype Availability = Available | CredentialNotConfigured | Disabled

  datatype Capabilities = Capabilities(
    formRead: bool, sqlRead: bool, formCreate: bool, formUpdate: bool, healthCheck: bool)

  datatype Descriptor = Descriptor(availability: Availability, readOnly: bool, capabilities: Capabilities)

  predicate HasWriteScope(s: FieldScope) {
    s.allowAll || s.allowAllForForms != [] || s.fieldsByForm.Keys != {}
  }

  /** `describe_target`; the one backend kind is enabled on every target. */
  function DescribeTarget(enabled: bool, p: Policy, availability: Option<Availability>): Descriptor {
    var effective := if availability.Some? then availability.value else if enabled then Available else Disabled;
    var available := effective == Available;
    var writes := p.accessMode == ReadWrite;
    var c := Capabilities(
      p.allowFormReads && available,
      p.allowSql && available,
      writes && HasWriteScope(p.creatable) && available,
      writes && HasWriteScope(p.updatable) && available,
      available);
    Descriptor(effective, !c.formCreate && !c.formUpdate, c)
  }

  /** What a target says of itself under any policy, validated or not. */
  lemma DescriptorExactly(enabled: bool, p: Policy, availability: Option<Availability>)
    ensures var d := DescribeTarget(enabled, p, availability);
            var available := availability == Some(Available) || (availability.None? && enabled);
            var writes := available && p.accessMode == ReadWrite;
            && (d.availability == Available <==> available)
            && (d.availability == Disabled <==> availability == Some(Disabled) || (availability.None? && !enabled))
            && (d.capabilities.formRead <==> available && p.allowFormReads)
            && (d.capabilities.sqlRead <==> available && p.allowSql)
            && (d.capabilities.healthCheck <==> available)
            && (d.capabilities.formCreate <==>
                  && writes
                  && (p.creatable.allowAll || |p.creatable.allowAllForForms| > 0 || exists form :: form in p.creatable.fieldsByForm))
            && (d.capabilities.formUpdate <==>
                  && writes
                  && (p.updatable.allowAll || |p.updatable.allowAllForForms| > 0 || exists form :: form in p.updatable.fieldsByForm))
            && (d.readOnly <==> !d.capabilities.formCreate && !d.capabilities.formUpdate)
  {
    assert forall s: FieldScope :: (exists form :: form in s.fieldsByForm) <==> s.fieldsByForm.Keys != {};
  }

  /** Some write of one field passes the gate. */
  ghost predicate SomeWritePasses(t: Text, p: Policy, op: Operation) {
    exists form, field, value, reason :: EnforceWrite(t, p, op, form, [(field, value)], reason).Ok?
  }

  /** There is a reason to give, and a name that the policy does not call sensitive. */
  ghost predicate SomethingToWrite(t: Text, p: Policy) {
    (exists reason :: !t.blank(reason)) && (exists field :: !Sensitive(t, p, field))
  }

  /** What is advertised is what the gate allows: create and update appear together, exactly when the
      target is available and the mode is read-write; in that mode some write passes the gate, unless
      there is nothing to write under any policy of these sensitive names, and in no other mode. */
  lemma AdvertisedWritesAreReal(t: Text, enabled: bool, p: Policy, availability: Option<Availability>)
    requires Accepted(t, p)
    ensures var d := DescribeTarget(enabled, p, availability);
            && (d.capabilities.formCreate <==> d.availability == Available && p.accessMode == ReadWrite)
            && (d.capabilities.formUpdate <==> d.capabilities.formCreate)
            && (d.readOnly <==> !d.capabilities.formCreate)
    ensures SomeWritePasses(t, p, CreateEntry) <==> p.accessMode == ReadWrite && SomethingToWrite(t, p)
    ensures SomeWritePasses(t, p, UpdateEntry) <==> p.accessMode == ReadWrite && SomethingToWrite(t, p)
  {
    hide SomeWritePasses, SomethingToWrite;
    WritesPassExactly(t, p, CreateEntry);
    WritesPassExactly(t, p, UpdateEntry);
    if p.accessMode == ReadWrite {
      var forms := EffectiveWritableForms(p);
      assert forms != [] ==> forms[0] in Elements(forms);
      assert ScopeValid(p, p.creatable) && ScopeValid(p, p.updatable);
    }
  }

  lemma WritesPassExactly(t: Text, p: Policy, op: Operation)
    requires Accepted(t, p)
    ensures SomeWritePasses(t, p, op) <==> p.accessMode == ReadWrite && SomethingToWrite(t, p)
  {
    if SomeWritePasses(t, p, op) {
      var form, field, value, reason :| EnforceWrite(t, p, op, form, [(field, value)], reason).Ok?;
      PassingWrite(t, p, op, form, field, value, reason);
    }
    if p.accessMode == ReadWrite && SomethingToWrite(t, p) {
      var reason :| !t.blank(reason);
      var form, field := WritableSomewhere(t, p, op);
      AcceptedPolicyIsExactlyEnforced(t, p, op, form, [(field, Bool(true))], reason);
    }
  }

  lemma PassingWrite(t: Text, p: Policy, op: Operation, form: string, field: string, value: Scalar, reason: string)
    requires Accepted(t, p) && EnforceWrite(t, p, op, form, [(field, value)], reason).Ok?
    ensures p.accessMode == ReadWrite && !t.blank(reason) && !Sensitive(t, p, field)
  {
    var values := [(field, value)];
    assert !Sensitive(t, p, values[0].0);
  }

  /** A form and a field that an accepted read-write policy opens. */
  lemma WritableSomewhere(t: Text, p: Policy, op: Operation) returns (form: string, field: string)
    requires Accepted(t, p) && p.accessMode == ReadWrite && exists f :: !Sensitive(t, p, f)
    ensures WritableForm(p, form) && WritableField(t, p, op, form, field)
  {
    var forms := EffectiveWritableForms(p);
    form := if forms != [] then forms[0] else "";
    assert forms != [] ==> form in Elements(forms);
    assert WritableForm(p, form);
    EveryWritableFormHasAField(t, p, op, form);
    if AllFieldsAllowed(p, op, form) {
      field :| !Sensitive(t, p, field);
    } else {
      field :| field in ListedFields(p, op, form) && WritableField(t, p, op, form, field);
    }
  }
}
