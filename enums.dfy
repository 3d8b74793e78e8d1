/** The enumerations the application branches on, each with the string
    value it is sent and stored as, and the membership test
    `Object.values(E).includes(s)` the controllers apply to query values. */
module Enums {
  import opened Wrappers

  datatype Specialization = CTI_RO | CTI_ENG | ETC_ENG | ETC_RO | IS | INFO
  {
    function Name(): string {
      match this
      case CTI_RO => "CTI_RO"
      case CTI_ENG => "CTI_ENG"
      case ETC_ENG => "ETC_ENG"
      case ETC_RO => "ETC_RO"
      case IS => "IS"
      case INFO => "INFO"
    }
  }

  /** The member of Specialization whose value is `s`, if there is one. */
  function ParseSpecialization(s: string): (r: Option<Specialization>)
    ensures r.Some? ==> r.value.Name() == s
  {
    if s == "CTI_RO" then Some(CTI_RO)
    else if s == "CTI_ENG" then Some(CTI_ENG)
    else if s == "ETC_ENG" then Some(ETC_ENG)
    else if s == "ETC_RO" then Some(ETC_RO)
    else if s == "IS" then Some(IS)
    else if s == "INFO" then Some(INFO)
    else None
  }

  /** Parsing recognises exactly the enum's values: every value parses back
      to its own member, and nothing else parses. */
  lemma SpecializationRoundTrip(sp: Specialization, s: string)
    ensures ParseSpecialization(sp.Name()) == Some(sp)
    ensures ParseSpecialization(s).Some? <==> exists m: Specialization :: m.Name() == s
  {
    if ParseSpecialization(s).None? {
      forall m: Specialization ensures m.Name() != s {
        match m
        case CTI_RO => case CTI_ENG => case ETC_ENG =>
        case ETC_RO => case IS => case INFO =>
      }
    }
  }

  datatype Faculty = AC | ETCTI
  {
    function Name(): string {
      match this
      case AC => "AC"
      case ETCTI => "ETCTI"
    }
  }

  /** The member of Faculty whose value is `s`, if there is one. */
  function ParseFaculty(s: string): (r: Option<Faculty>)
    ensures r.Some? ==> r.value.Name() == s
  {
    if s == "AC" then Some(AC)
    else if s == "ETCTI" then Some(ETCTI)
    else None
  }

  lemma FacultyRoundTrip(f: Faculty, s: string)
    ensures ParseFaculty(f.Name()) == Some(f)
    ensures ParseFaculty(s).Some? <==> exists m: Faculty :: m.Name() == s
  {
    if ParseFaculty(s).None? {
      forall m: Faculty ensures m.Name() != s {
        match m
        case AC => case ETCTI =>
      }
    }
  }

  /** The review state of a student response. */
  datatype ResponseStatus = SENT | APPROVED | DECLINED

  datatype UserRole = Admin | Secretara | Student
  {
    function Name(): string {
      match this
      case Admin => "Admin"
      case Secretara => "Secretara"
      case Student => "Student"
    }
  }
}
