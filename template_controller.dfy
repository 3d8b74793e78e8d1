/** The template controller's work before it calls the service: splitting
    and trimming comma-separated form values, wrapping a single query value
    into a list, checking query values against the enumerations (BadRequest
    on the first bad one), and defaulting pagination. */
module TemplateController {
  import opened Wrappers
  import opened Enums
  import opened Entities
  import Text
  import TemplateService

  /** A request value as the web framework hands it over: absent, a single
      string, or an array of strings. */
  datatype Input = Missing | Single(s: string) | Many(items: seq<string>)

  /** `value.split(',').map(v => v.trim())`: every comma-separated piece,
      trimmed, in order; empty pieces are kept. */
  function SplitTrim(s: string): (r: seq<string>)
    ensures |r| == |Text.Split(s, ',')| == Text.Count(s, ',') + 1
    ensures forall k :: 0 <= k < |r| ==> Text.IsTrimmed(r[k]) && ',' !in r[k]
    ensures forall k :: 0 <= k < |r| ==> r[k] == Text.Trim(Text.Split(s, ',')[k])
  {
    var pieces := Text.Split(s, ',');
    Text.SplitCount(s, ',');
    Text.SplitPiecesLackSeparator(s, ',');
    seq(|pieces|, k requires 0 <= k < |pieces| => Text.Trim(pieces[k]))
  }

  /** Joining trimmed, comma-free names with commas and splitting them again
      gives the names back. */
  lemma SplitTrimJoin(names: seq<string>)
    requires |names| >= 1
    requires forall k :: 0 <= k < |names| ==> Text.IsTrimmed(names[k]) && ',' !in names[k]
    ensures SplitTrim(Text.Join(names, ',')) == names
  {
    Text.SplitJoin(names, ',');
    forall k | 0 <= k < |names| ensures Text.Trim(names[k]) == names[k] {
      Text.TrimFixedPoint(names[k]);
    }
  }

  /** uploadTemplate overwrites a string `fields` or `specializations` by its
      trimmed comma-separated pieces; an array or an absent value is left as
      it is. */
  function NormaliseUpload(v: Input): (r: Input)
    ensures !r.Single?
    ensures v.Single? ==> r == Many(SplitTrim(v.s)) && |r.items| == Text.Count(v.s, ',') + 1
    ensures !v.Single? ==> r == v
  {
    match v
    case Single(s) => Many(SplitTrim(s))
    case _ => v
  }

  /** updateTemplate does the same, but only to a non-empty string: the empty
      string is falsy and is left alone. */
  function NormaliseUpdate(v: Input): (r: Input)
    ensures r.Single? ==> r.s == ""
    ensures v.Single? && v.s != "" ==> r == Many(SplitTrim(v.s))
    ensures !(v.Single? && v.s != "") ==> r == v
  {
    match v
    case Single(s) => if s != "" then Many(SplitTrim(s)) else v
    case _ => v
  }

  /** `Array.isArray(v) ? v : []` as createTemplate reads `fields`: None
      stands for "not an array". */
  function ArrayValue(v: Input): (r: Option<seq<string>>)
    ensures r.Some? <==> v.Many?
    ensures r.Some? ==> r.value == v.items
  {
    if v.Many? then Some(v.items) else None
  }

  /** updateTemplate's `if (updateData.x)` after normalisation: an array,
      empty or not, is truthy; an absent value and the empty string are not. */
  function Supplied(v: Input): (r: Option<seq<string>>)
    requires v.Single? ==> v.s == ""
    ensures r.Some? <==> v.Many?
    ensures r.Some? ==> r.value == v.items
  {
    if v.Many? then Some(v.items) else None
  }

  /** The template's stored specializations as createTemplate assigns them;
      an absent value is stored as no specializations. */
  function StoredSpecializations(v: Input): (r: seq<string>)
    requires !v.Single?
    ensures v.Many? ==> r == v.items
    ensures v.Missing? ==> r == []
  {
    if v.Many? then v.items else []
  }

  /** `Array.isArray(q) ? q : [q]` under `if (q)`: a single value becomes a
      one-element list; an absent value or an empty string (falsy) stays
      absent. */
  function Wrap(q: Input): (r: Option<seq<string>>)
    ensures r.None? <==> q.Missing? || q == Single("")
    ensures q.Single? && q.s != "" ==> r == Some([q.s])
    ensures q.Many? ==> r == Some(q.items)
  {
    match q
    case Missing => None
    case Single(s) => if s == "" then None else Some([s])
    case Many(items) => Some(items)
  }

  /** Position `i` holds the first value that `parse` rejects. */
  predicate FirstInvalidAt<T>(values: seq<string>, parse: string -> Option<T>, i: int) {
    && 0 <= i < |values|
    && parse(values[i]).None?
    && forall j :: 0 <= j < i ==> parse(values[j]).Some?
  }

  /** The controller's `forEach` that throws BadRequest on the first value
      not in the enumeration; on success, the parsed members in order. */
  method ParseAll<T>(values: seq<string>, parse: string -> Option<T>, prefix: string)
    returns (r: Result<seq<T>, Failure>)
    ensures r.Ok? <==> forall k :: 0 <= k < |values| ==> parse(values[k]).Some?
    ensures r.Ok? ==> |r.value| == |values|
    ensures r.Ok? ==> forall k :: 0 <= k < |values| ==> parse(values[k]) == Some(r.value[k])
    ensures r.Err? ==> exists i :: FirstInvalidAt(values, parse, i) && r.error == BadRequest(prefix + values[i])
  {
    var parsed: seq<T> := [];
    var i := 0;
    while i < |values|
      invariant 0 <= i <= |values| && |parsed| == i
      invariant forall k :: 0 <= k < i ==> parse(values[k]) == Some(parsed[k])
    {
      var p := parse(values[i]);
      if p.None? {
        assert FirstInvalidAt(values, parse, i);
        return Err(BadRequest(prefix + values[i]));
      }
      parsed := parsed + [p.value];
      i := i + 1;
    }
    r := Ok(parsed);
  }

  const InvalidSpecialization := "Invalid specialization: "
  const InvalidFaculty := "Invalid faculty: "

  /** `getTemplates`: an absent filter lists every template; otherwise the
      wrapped filter is checked value by value, and a bad value is a
      BadRequest before the service is consulted. */
  method GetTemplates(svc: TemplateService.TemplatesService, q: Input)
    returns (r: Result<map<nat, Template>, Failure>)
    ensures Wrap(q).None? ==> r == Ok(svc.templates)
    ensures Wrap(q).Some? ==>
      (r.Err? <==> exists k :: 0 <= k < |Wrap(q).value| && ParseSpecialization(Wrap(q).value[k]).None?)
    ensures r.Err? ==> exists i :: FirstInvalidAt(Wrap(q).value, ParseSpecialization, i)
                                 && r.error == BadRequest(InvalidSpecialization + Wrap(q).value[i])
    ensures r.Ok? && Wrap(q).Some? ==> exists filter: seq<Specialization> ::
      && |filter| == |Wrap(q).value|
      && (forall k :: 0 <= k < |filter| ==> filter[k].Name() == Wrap(q).value[k])
      && r.value == svc.FindTemplates(Some(filter))
  {
    var list := Wrap(q);
    if list.None? {
      return Ok(svc.FindTemplates(None));
    }
    var parsed := ParseAll(list.value, ParseSpecialization, InvalidSpecialization);
    if parsed.Err? {
      return Err(parsed.error);
    }
    var filter := parsed.value;
    r := Ok(svc.FindTemplates(Some(filter)));
    assert forall k :: 0 <= k < |filter| ==> filter[k].Name() == list.value[k];
  }

  /** `uploadTemplate`: normalises `fields` and `specializations`, then
      creates the template. A comma-separated `fields` string becomes one
      field per piece. `file` is the uploaded file's path, None when the
      request carries no file. */
  method UploadTemplate(svc: TemplateService.TemplatesService, file: Option<string>, name: string,
                        fields: Input, specializations: Input, now: int)
    returns (r: Result<nat, Failure>)
    requires svc.Valid()
    modifies svc
    ensures svc.Valid()
    ensures r.Err? <==> fields.Missing? || fields == Many([]) || file.None?
    ensures fields.Missing? || fields == Many([]) ==> r == Err(Plain(TemplateService.FieldsMissingMessage))
    ensures !(fields.Missing? || fields == Many([])) && file.None? ==> r == Err(Plain(TemplateService.NoFileMessage))
    ensures r.Err? ==> svc.templates == old(svc.templates) && svc.fields == old(svc.fields)
    ensures r.Ok? ==> r.value !in old(svc.templates)
    ensures r.Ok? ==> svc.templates == old(svc.templates)[r.value :=
      Template(name, file.value, StoredSpecializations(NormaliseUpload(specializations)), now, None)]
    ensures r.Ok? ==>
      svc.fields == old(svc.fields) + TemplateService.NewFields(old(svc.nextFieldId), NormaliseUpload(fields).items, r.value)
    ensures svc.responses == old(svc.responses) && svc.users == old(svc.users)
    ensures r.Ok? ==>
      svc.FindFieldsByTemplateId(r.value) == TemplateService.NewFields(old(svc.nextFieldId), NormaliseUpload(fields).items, r.value)
  {
    var f := NormaliseUpload(fields);
    var sp := NormaliseUpload(specializations);
    r := svc.CreateTemplate(file, name, ArrayValue(f), StoredSpecializations(sp), now);
  }

  /** `updateTemplate`: normalises non-empty `fields` and `specializations`
      strings, then updates the template with whatever is supplied. */
  method UpdateTemplate(svc: TemplateService.TemplatesService, id: nat, newFilePath: Option<string>,
                        name: Option<string>, fields: Input, specializations: Input, now: int)
    returns (r: Result<Template, Failure>)
    requires svc.Valid()
    modifies svc
    ensures svc.Valid()
    ensures r.Err? <==> id !in old(svc.templates)
    ensures r.Err? ==> r.error == NotFound(TemplateService.TemplateIdNotFound(id))
    ensures r.Err? ==> svc.templates == old(svc.templates) && svc.fields == old(svc.fields)
    ensures r.Ok? ==> svc.templates == old(svc.templates)[id := r.value]
    ensures forall fid :: fid in old(svc.fields) && old(svc.fields)[fid].templateId != id ==>
      fid in svc.fields && svc.fields[fid] == old(svc.fields)[fid]
    ensures svc.responses == old(svc.responses) && svc.users == old(svc.users)
    ensures r.Ok? && Supplied(NormaliseUpdate(fields)).Some? ==>
      svc.fields == (old(svc.fields) - old(svc.FieldIdsOf(id)))
                    + TemplateService.NewFields(old(svc.nextFieldId), Supplied(NormaliseUpdate(fields)).value, id)
    ensures r.Ok? ==>
      && r.value.filePath == (if newFilePath.Some? then newFilePath.value else old(svc.templates)[id].filePath)
      && r.value.name == (if name.Some? && name.value != "" then name.value else old(svc.templates)[id].name)
      && r.value.createDate == old(svc.templates)[id].createDate
      && r.value.updateDate == Some(now)
    ensures r.Ok? && specializations.Single? && specializations.s != "" ==>
      r.value.specializations == SplitTrim(specializations.s)
    ensures r.Ok? && specializations.Many? ==> r.value.specializations == specializations.items
    ensures r.Ok? && (specializations.Missing? || specializations == Single("")) ==>
      r.value.specializations == old(svc.templates)[id].specializations
    ensures r.Ok? && fields.Many? ==>
      svc.FindFieldsByTemplateId(id) == TemplateService.NewFields(old(svc.nextFieldId), fields.items, id)
    ensures r.Ok? && fields.Single? && fields.s != "" ==>
      svc.FindFieldsByTemplateId(id) == TemplateService.NewFields(old(svc.nextFieldId), SplitTrim(fields.s), id)
    ensures r.Ok? && (fields.Missing? || fields == Single("")) ==> svc.fields == old(svc.fields)
  {
    var f := NormaliseUpdate(fields);
    var sp := NormaliseUpdate(specializations);
    r := svc.UpdateTemplate(id, newFilePath, name, Supplied(sp), Supplied(f), now);
  }

  /** The filters and page the responses listing asks the service for. */
  datatype ResponsesQuery = ResponsesQuery(
    status: Option<string>,
    faculties: Option<seq<Faculty>>,
    specializations: Option<seq<Specialization>>,
    years: Option<seq<string>>,
    page: int,
    limit: int)

  /** `getAllResponsesWithUserDetails` up to the service call: wraps the
      list-valued filters, rejects the first bad specialization and then the
      first bad faculty, and defaults page and limit to 1 and 10. */
  method ParseResponsesQuery(status: Option<string>, faculties: Input, specializations: Input,
                             years: Input, page: Option<int>, limit: Option<int>)
    returns (r: Result<ResponsesQuery, Failure>)
    ensures var sp := Wrap(specializations); var fa := Wrap(faculties);
      r.Ok? <==>
        && (sp.Some? ==> forall k :: 0 <= k < |sp.value| ==> ParseSpecialization(sp.value[k]).Some?)
        && (fa.Some? ==> forall k :: 0 <= k < |fa.value| ==> ParseFaculty(fa.value[k]).Some?)
    ensures r.Ok? && r.value.specializations.Some? ==>
      && Wrap(specializations).Some?
      && |r.value.specializations.value| == |Wrap(specializations).value|
      && forall k :: 0 <= k < |r.value.specializations.value| ==>
           r.value.specializations.value[k].Name() == Wrap(specializations).value[k]
    ensures r.Ok? && r.value.faculties.Some? ==>
      && Wrap(faculties).Some?
      && |r.value.faculties.value| == |Wrap(faculties).value|
      && forall k :: 0 <= k < |r.value.faculties.value| ==>
           r.value.faculties.value[k].Name() == Wrap(faculties).value[k]
    ensures r.Err? && Wrap(specializations).Some? &&
            (exists k :: 0 <= k < |Wrap(specializations).value| && ParseSpecialization(Wrap(specializations).value[k]).None?) ==>
      exists i :: FirstInvalidAt(Wrap(specializations).value, ParseSpecialization, i)
               && r.error == BadRequest(InvalidSpecialization + Wrap(specializations).value[i])
    ensures r.Err? && Wrap(faculties).Some? &&
            (Wrap(specializations).Some? ==> forall k :: 0 <= k < |Wrap(specializations).value| ==>
               ParseSpecialization(Wrap(specializations).value[k]).Some?) ==>
      exists i :: FirstInvalidAt(Wrap(faculties).value, ParseFaculty, i)
               && r.error == BadRequest(InvalidFaculty + Wrap(faculties).value[i])
    ensures r.Err? ==> r.error.BadRequest?
    ensures r.Ok? ==>
      && r.value.status == status
      && r.value.years == Wrap(years)
      && (r.value.specializations.Some? <==> Wrap(specializations).Some?)
      && (r.value.faculties.Some? <==> Wrap(faculties).Some?)
      && r.value.page == (if page.Some? then page.value else 1)
      && r.value.limit == (if limit.Some? then limit.value else 10)
  {
    var parsedSpecializations: Option<seq<Specialization>> := None;
    var sp := Wrap(specializations);
    if sp.Some? {
      var p := ParseAll(sp.value, ParseSpecialization, InvalidSpecialization);
      if p.Err? {
        return Err(p.error);
      }
      parsedSpecializations := Some(p.value);
    }
    var parsedFaculties: Option<seq<Faculty>> := None;
    var fa := Wrap(faculties);
    if fa.Some? {
      var p := ParseAll(fa.value, ParseFaculty, InvalidFaculty);
      if p.Err? {
        return Err(p.error);
      }
      parsedFaculties := Some(p.value);
    }
    r := Ok(ResponsesQuery(
      status, parsedFaculties, parsedSpecializations, Wrap(years),
      if page.Some? then page.value else 1,
      if limit.Some? then limit.value else 10));
  }
}
