/** The template and response service: four repositories (templates,
    fields, student responses, users) held as tables keyed by generated ids,
    and the operations that read and update them one save or delete at a
    time. Document rendering, the clock and the file system are parameters. */
module TemplateService {
  import opened Wrappers
  import opened Enums
  import opened Entities
  import Text

  const FieldsMissingMessage := "Fields array is empty or not provided correctly."
  const TemplateNotFoundMessage := "Template not found"
  const StudentNotFoundMessage := "Student not found"
  /** What reading `file.path` throws when the request carries no file. */
  const NoFileMessage := "Cannot read properties of undefined (reading 'path')"

  function TemplateIdNotFound(id: nat): string {
    "Template with ID " + Text.NatToString(id) + " not found"
  }

  function ResponseIdNotFound(id: nat): string {
    "Student response with ID " + Text.NatToString(id) + " not found"
  }

  /** The field rows a save of `names` for template `tid` inserts when the id
      generator stands at `start`: one row per name, ids in input order. */
  function NewFields(start: nat, names: seq<string>, tid: nat): (m: map<nat, Field>)
    ensures forall k :: k in m <==> start <= k < start + |names|
    ensures forall k :: k in m ==> m[k] == Field(names[k - start], tid)
  {
    if names == [] then map[]
    else
      var n := |names| - 1;
      NewFields(start, names[..n], tid)[start + n := Field(names[n], tid)]
  }

  /** Saving one more name adds one more row. */
  lemma NewFieldsSnoc(start: nat, names: seq<string>, i: nat, tid: nat)
    requires i < |names|
    ensures NewFields(start, names[..i + 1], tid) == NewFields(start, names[..i], tid)[start + i := Field(names[i], tid)]
  {
    assert names[..i + 1][..i] == names[..i];
  }

  /** One more save in the loop extends the saved rows by the next name. */
  lemma SaveStep(base: map<nat, Field>, start: nat, names: seq<string>, i: nat, tid: nat)
    requires i < |names|
    ensures (base + NewFields(start, names[..i], tid))[start + i := Field(names[i], tid)]
         == base + NewFields(start, names[..i + 1], tid)
  {
    NewFieldsSnoc(start, names, i, tid);
    UnionThenUpdate(base, NewFields(start, names[..i], tid), start + i, Field(names[i], tid));
  }

  lemma UnionThenUpdate<K, V>(a: map<K, V>, b: map<K, V>, k: K, v: V)
    ensures (a + b)[k := v] == a + b[k := v]
  {
  }

  /** Once the rows of `tid` are gone, the rows of `tid` after the inserts
      are exactly the inserted ones. */
  lemma FieldsOfAfterReplace(kept: map<nat, Field>, start: nat, names: seq<string>, tid: nat)
    requires forall fid :: fid in kept ==> kept[fid].templateId != tid
    ensures var all := kept + NewFields(start, names, tid);
      (map fid | fid in all && all[fid].templateId == tid :: all[fid]) == NewFields(start, names, tid)
  {
  }

  /** A specialization column overlaps a filter (SQL `&&` on arrays) when
      some value of the filter is stored in the column. */
  predicate Overlaps(stored: seq<string>, filter: seq<Specialization>): (b: bool)
    ensures b ==> stored != [] && filter != []
    ensures forall k :: 0 <= k < |filter| && filter[k].Name() in stored ==> b
  {
    exists k :: 0 <= k < |filter| && filter[k].Name() in stored
  }

  /** Overlap is set intersection: it holds exactly when the two sets of
      values share an element. */
  lemma OverlapsIsIntersection(stored: seq<string>, filter: seq<Specialization>)
    ensures Overlaps(stored, filter)
        <==> (set s | s in stored) * (set f | f in filter :: f.Name()) != {}
  {
    var common := (set s | s in stored) * (set f | f in filter :: f.Name());
    if Overlaps(stored, filter) {
      var k :| 0 <= k < |filter| && filter[k].Name() in stored;
      assert filter[k].Name() in common;
    }
    if common != {} {
      var s :| s in common;
      var f :| f in filter && f.Name() == s;
      var k :| 0 <= k < |filter| && filter[k] == f;
      assert filter[k].Name() in stored;
    }
  }

  /** A template together with its fields, as `getTemplateById` loads it. */
  datatype TemplateWithFields = TemplateWithFields(template: Template, fields: map<nat, Field>)

  /** A response with its template and student joined in. */
  datatype ResponseDetails = ResponseDetails(response: StudentResponse, template: Template, student: User)

  class TemplatesService {
    var templates: map<nat, Template>
    var fields: map<nat, Field>
    var responses: map<nat, StudentResponse>
    var users: map<nat, User>
    var nextTemplateId: nat
    var nextFieldId: nat
    var nextResponseId: nat

    /** Generated ids lie below their generator, and every foreign key
        refers to an existing row. */
    ghost predicate Valid()
      reads this
    {
      && (forall id :: id in templates ==> id < nextTemplateId)
      && (forall id :: id in fields ==> id < nextFieldId)
      && (forall id :: id in responses ==> id < nextResponseId)
      && (forall id :: id in fields ==> fields[id].templateId in templates)
      && (forall id :: id in responses ==> responses[id].templateId in templates)
      && (forall id :: id in responses ==> responses[id].studentId in users)
    }

    constructor (users: map<nat, User>)
      ensures Valid()
      ensures templates == map[] && fields == map[] && responses == map[]
      ensures this.users == users
    {
      templates, fields, responses := map[], map[], map[];
      this.users := users;
      nextTemplateId, nextFieldId, nextResponseId := 0, 0, 0;
    }

    /** The ids of the fields belonging to template `tid`. */
    function FieldIdsOf(tid: nat): set<nat>
      reads this
    {
      set fid | fid in fields && fields[fid].templateId == tid
    }

    /** The ids of the responses submitted against template `tid`. */
    function ResponseIdsOf(tid: nat): set<nat>
      reads this
    {
      set rid | rid in responses && responses[rid].templateId == tid
    }

    /** `findFieldsByTemplateId`: the fields pointing to `tid`; an unknown
        template simply has none. */
    function FindFieldsByTemplateId(tid: nat): (r: map<nat, Field>)
      reads this
      ensures forall fid :: fid in r <==> fid in fields && fields[fid].templateId == tid
      ensures forall fid :: fid in r ==> r[fid] == fields[fid]
    {
      map fid | fid in fields && fields[fid].templateId == tid :: fields[fid]
    }

    /** `getTemplateById`: the template with its fields, or nothing (the
        source returns null rather than throwing). */
    function GetTemplateById(id: nat): (r: Option<TemplateWithFields>)
      reads this
      ensures r.Some? <==> id in templates
      ensures r.Some? ==> r.value.template == templates[id]
      ensures r.Some? ==> forall fid :: fid in r.value.fields <==> fid in fields && fields[fid].templateId == id
      ensures r.Some? ==> forall fid :: fid in r.value.fields ==> r.value.fields[fid] == fields[fid]
    {
      if id in templates then Some(TemplateWithFields(templates[id], FindFieldsByTemplateId(id)))
      else None
    }

    /** `findTemplates`: with a non-empty filter, exactly the templates whose
        specializations share a value with it; otherwise every template. */
    function FindTemplates(filter: Option<seq<Specialization>>): (r: map<nat, Template>)
      reads this
      ensures forall id :: id in r <==>
        id in templates && (filter.None? || filter.value == [] || Overlaps(templates[id].specializations, filter.value))
      ensures forall id :: id in r ==> r[id] == templates[id]
    {
      if filter.Some? && |filter.value| > 0 then
        map id | id in templates && Overlaps(templates[id].specializations, filter.value) :: templates[id]
      else
        templates
    }

    /** `findResponsesByStudentId`: the responses of one student, with their
        template and student joined in. */
    function FindResponsesByStudentId(studentId: nat): (r: map<nat, ResponseDetails>)
      requires Valid()
      reads this
      ensures forall rid :: rid in r <==> rid in responses && responses[rid].studentId == studentId
      ensures forall rid :: rid in r ==>
        && r[rid].response == responses[rid]
        && r[rid].template == templates[responses[rid].templateId]
        && r[rid].student == users[studentId]
    {
      map rid | rid in responses && responses[rid].studentId == studentId ::
        Details(responses[rid])
    }

    /** `findAllResponsesWithUserDetails`: every response, or only those in
        the given status, with template and student joined in. */
    function FindAllResponsesWithUserDetails(status: Option<ResponseStatus>): (r: map<nat, ResponseDetails>)
      requires Valid()
      reads this
      ensures forall rid :: rid in r <==> rid in responses && (status.None? || responses[rid].status == status.value)
      ensures forall rid :: rid in r ==>
        && r[rid].response == responses[rid]
        && r[rid].template == templates[responses[rid].templateId]
        && r[rid].student == users[responses[rid].studentId]
    {
      map rid | rid in responses && (status.None? || responses[rid].status == status.value) ::
        Details(responses[rid])
    }

    function Details(resp: StudentResponse): ResponseDetails
      requires resp.templateId in templates && resp.studentId in users
      reads this
    {
      ResponseDetails(resp, templates[resp.templateId], users[resp.studentId])
    }

    /** `createTemplate`: refuses a missing or empty field list and then
        stores nothing; otherwise saves the template first and then one field
        per name, in order, each pointing to the new template. `fieldNames` is
        None when the request's `fields` is not an array; `file` is None when
        the request carries no file, and reading its path then throws before
        anything is saved. */
    method CreateTemplate(file: Option<string>, name: string, fieldNames: Option<seq<string>>,
                          specializations: seq<string>, now: int)
      returns (r: Result<nat, Failure>)
      requires Valid()
      modifies this
      ensures Valid()
      ensures r.Err? <==> fieldNames.None? || fieldNames.value == [] || file.None?
      ensures fieldNames.None? || fieldNames.value == [] ==> r == Err(Plain(FieldsMissingMessage))
      ensures fieldNames.Some? && fieldNames.value != [] && file.None? ==> r == Err(Plain(NoFileMessage))
      ensures r.Err? ==> templates == old(templates) && fields == old(fields)
      ensures r.Err? ==> nextTemplateId == old(nextTemplateId) && nextFieldId == old(nextFieldId)
      ensures r.Ok? ==>
        && r.value == old(nextTemplateId) && r.value !in old(templates)
        && templates == old(templates)[r.value := Template(name, file.value, specializations, now, None)]
        && fields == old(fields) + NewFields(old(nextFieldId), fieldNames.value, r.value)
        && FindFieldsByTemplateId(r.value) == NewFields(old(nextFieldId), fieldNames.value, r.value)
        && nextTemplateId == old(nextTemplateId) + 1
        && nextFieldId == old(nextFieldId) + |fieldNames.value|
      ensures responses == old(responses) && users == old(users) && nextResponseId == old(nextResponseId)
    {
      var names := if fieldNames.Some? then fieldNames.value else [];
      if |names| == 0 {
        return Err(Plain(FieldsMissingMessage));
      }
      if file.None? {
        return Err(Plain(NoFileMessage));
      }
      // First phase: the template gets its id.
      var id := nextTemplateId;
      templates := templates[id := Template(name, file.value, specializations, now, None)];
      nextTemplateId := nextTemplateId + 1;
      // Second phase: all field rows in one save.
      var added := NewFields(nextFieldId, names, id);
      fields := fields + added;
      nextFieldId := nextFieldId + |names|;
      r := Ok(id);
      assert forall fid :: fid in old(fields) ==> old(fields)[fid].templateId != id;
      FieldsOfAfterReplace(old(fields), old(nextFieldId), names, id);
    }

    /** Saves one field row under the next generated id. */
    method SaveField(fieldName: string, tid: nat) returns (fid: nat)
      modifies this`fields, this`nextFieldId
      ensures fid == old(nextFieldId) && nextFieldId == old(nextFieldId) + 1
      ensures fields == old(fields)[fid := Field(fieldName, tid)]
    {
      fid := nextFieldId;
      fields := fields[fid := Field(fieldName, tid)];
      nextFieldId := nextFieldId + 1;
    }

    /** `fieldRepository.delete({template: {id: tid}})`. */
    method DeleteFieldsOf(tid: nat)
      modifies this`fields
      ensures fields == old(fields) - old(FieldIdsOf(tid))
      ensures forall fid :: fid in fields ==> fields[fid].templateId != tid
    {
      fields := fields - FieldIdsOf(tid);
    }

    /** Saves one field per name for template `tid`, one save at a time, in
        order. */
    method SaveFieldsInOrder(tid: nat, names: seq<string>)
      modifies this`fields, this`nextFieldId
      ensures fields == old(fields) + NewFields(old(nextFieldId), names, tid)
      ensures nextFieldId == old(nextFieldId) + |names|
    {
      var i := 0;
      while i < |names|
        invariant 0 <= i <= |names|
        invariant nextFieldId == old(nextFieldId) + i
        invariant fields == old(fields) + NewFields(old(nextFieldId), names[..i], tid)
      {
        var _ := SaveField(names[i], tid);
        SaveStep(old(fields), old(nextFieldId), names, i, tid);
        i := i + 1;
      }
      assert names[..i] == names;
    }

    /** Deletes every field of template `tid`, then saves one field per name,
        one save at a time, in order. */
    method ReplaceFields(tid: nat, names: seq<string>)
      requires forall fid :: fid in fields ==> fid < nextFieldId
      modifies this`fields, this`nextFieldId
      ensures fields == (old(fields) - old(FieldIdsOf(tid))) + NewFields(old(nextFieldId), names, tid)
      ensures nextFieldId == old(nextFieldId) + |names|
      ensures FindFieldsByTemplateId(tid) == NewFields(old(nextFieldId), names, tid)
      ensures forall fid :: fid in fields ==> fid < nextFieldId
    {
      DeleteFieldsOf(tid);
      ghost var kept := fields;
      SaveFieldsInOrder(tid, names);
      FieldsOfAfterReplace(kept, old(nextFieldId), names, tid);
    }

    /** `updateTemplate`: NotFound on an unknown id, changing nothing.
        Otherwise the file path changes only when a file is given, the name
        only when a non-empty one is given, the specializations whenever a
        list is given; a given field list replaces all the template's fields,
        saved one by one; `updateDate` is always set. */
    method UpdateTemplate(id: nat, newFilePath: Option<string>, name: Option<string>,
                          specializations: Option<seq<string>>, fieldNames: Option<seq<string>>, now: int)
      returns (r: Result<Template, Failure>)
      requires Valid()
      modifies this
      ensures Valid()
      ensures r.Err? <==> id !in old(templates)
      ensures r.Err? ==> r.error == NotFound(TemplateIdNotFound(id))
      ensures r.Err? ==> templates == old(templates) && fields == old(fields) && nextFieldId == old(nextFieldId)
      ensures r.Ok? ==>
        var t := old(templates)[id];
        && r.value == Template(
             if name.Some? && name.value != "" then name.value else t.name,
             if newFilePath.Some? then newFilePath.value else t.filePath,
             if specializations.Some? then specializations.value else t.specializations,
             t.createDate,
             Some(now))
        && templates == old(templates)[id := r.value]
      ensures r.Ok? && fieldNames.None? ==> fields == old(fields) && nextFieldId == old(nextFieldId)
      ensures r.Ok? && fieldNames.Some? ==>
        && fields == (old(fields) - old(FieldIdsOf(id))) + NewFields(old(nextFieldId), fieldNames.value, id)
        && FindFieldsByTemplateId(id) == NewFields(old(nextFieldId), fieldNames.value, id)
        && nextFieldId == old(nextFieldId) + |fieldNames.value|
      ensures r.Ok? ==> forall fid :: fid in old(fields) && old(fields)[fid].templateId != id ==>
        fid in fields && fields[fid] == old(fields)[fid]
      ensures responses == old(responses) && users == old(users)
      ensures nextTemplateId == old(nextTemplateId) && nextResponseId == old(nextResponseId)
    {
      if id !in templates {
        return Err(NotFound(TemplateIdNotFound(id)));
      }
      var t := templates[id];
      if newFilePath.Some? {
        t := t.(filePath := newFilePath.value);
      }
      if name.Some? && name.value != "" {
        t := t.(name := name.value);
      }
      if specializations.Some? {
        t := t.(specializations := specializations.value);
      }
      if fieldNames.Some? {
        ReplaceFields(id, fieldNames.value);
      }
      t := t.(updateDate := Some(now));
      templates := templates[id := t];
      r := Ok(t);
    }

    /** `deleteTemplate`: NotFound on an unknown id. Otherwise deletes the
        template's fields, then the responses that reference it, then the
        template, and nothing else. */
    method DeleteTemplate(id: nat) returns (r: Outcome<Failure>)
      requires Valid()
      modifies this
      ensures Valid()
      ensures r.Fail? <==> id !in old(templates)
      ensures r.Fail? ==> r.error == NotFound(TemplateIdNotFound(id))
      ensures r.Fail? ==> templates == old(templates) && fields == old(fields) && responses == old(responses)
      ensures r.Pass? ==>
        && templates == old(templates) - {id}
        && fields == old(fields) - old(FieldIdsOf(id))
        && responses == old(responses) - old(ResponseIdsOf(id))
        && GetTemplateById(id) == None
        && FindFieldsByTemplateId(id) == map[]
        && ResponseIdsOf(id) == {}
      ensures users == old(users)
      ensures nextTemplateId == old(nextTemplateId) && nextFieldId == old(nextFieldId)
      ensures nextResponseId == old(nextResponseId)
    {
      if id !in templates {
        return Fail(NotFound(TemplateIdNotFound(id)));
      }
      DeleteFieldsOf(id);
      responses := responses - ResponseIdsOf(id);
      var affected := if id in templates then 1 else 0;
      templates := templates - {id};
      // The source checks `affected === 0` a second time; the row was found
      // above, so that check never fires.
      assert affected == 1;
      r := Pass;
    }

    /** `fillTemplate`: a plain error, and no new response, when the template
        or the student is missing or rendering fails. Otherwise stores exactly
        one new response in status SENT holding the submitted values, and
        returns the generated document's path. `renderError` is what the
        document renderer threw, if anything; `outputPath` is the fresh path
        it wrote to. */
    method FillTemplate(templateId: nat, studentId: nat, values: map<string, string>,
                        renderError: Option<string>, outputPath: string, now: int)
      returns (r: Result<string, Failure>)
      requires Valid()
      modifies this
      ensures Valid()
      ensures templateId !in old(templates) ==> r == Err(Plain(TemplateNotFoundMessage))
      ensures templateId in old(templates) && studentId !in old(users) ==> r == Err(Plain(StudentNotFoundMessage))
      ensures templateId in old(templates) && studentId in old(users) && renderError.Some? ==>
        r == Err(Plain(renderError.value))
      ensures r.Ok? <==> templateId in old(templates) && studentId in old(users) && renderError.None?
      ensures r.Err? ==> responses == old(responses) && nextResponseId == old(nextResponseId)
      ensures r.Ok? ==>
        && r.value == outputPath
        && old(nextResponseId) !in old(responses)
        && responses == old(responses)[old(nextResponseId) :=
             StudentResponse(templateId, studentId, values, outputPath, SENT, now)]
        && nextResponseId == old(nextResponseId) + 1
      ensures templates == old(templates) && fields == old(fields) && users == old(users)
      ensures nextTemplateId == old(nextTemplateId) && nextFieldId == old(nextFieldId)
    {
      if templateId !in templates {
        return Err(Plain(TemplateNotFoundMessage));
      }
      if studentId !in users {
        return Err(Plain(StudentNotFoundMessage));
      }
      if renderError.Some? {
        return Err(Plain(renderError.value));
      }
      var rid := nextResponseId;
      responses := responses[rid := StudentResponse(templateId, studentId, values, outputPath, SENT, now)];
      nextResponseId := nextResponseId + 1;
      r := Ok(outputPath);
    }

    /** `updateResponseStatus`: NotFound on an unknown id; otherwise the
        status becomes `newStatus` whatever it was, and nothing else changes. */
    method UpdateResponseStatus(responseId: nat, newStatus: ResponseStatus)
      returns (r: Result<StudentResponse, Failure>)
      requires Valid()
      modifies this`responses
      ensures Valid()
      ensures r.Err? <==> responseId !in old(responses)
      ensures r.Err? ==> r.error == NotFound(ResponseIdNotFound(responseId)) && responses == old(responses)
      ensures r.Ok? ==>
        && r.value == old(responses)[responseId].(status := newStatus)
        && responses == old(responses)[responseId := r.value]
    {
      if responseId !in responses {
        return Err(NotFound(ResponseIdNotFound(responseId)));
      }
      var resp := responses[responseId].(status := newStatus);
      responses := responses[responseId := resp];
      r := Ok(resp);
    }
  }
}
