/** The records the services read and write, with the columns the service
    code actually assigns (the entity classes of the repository lag behind
    it). References between records are by id. */
module Entities {
  import opened Wrappers
  import opened Enums

  /** A reusable document definition. Its fields live in their own table. */
  datatype Template = Template(
    name: string,
    filePath: string,
    specializations: seq<string>,
    createDate: int,
    updateDate: Option<int>)

  /** One named slot of a template. */
  datatype Field = Field(fieldName: string, templateId: nat)

  /** One student's submission against a template. */
  datatype StudentResponse = StudentResponse(
    templateId: nat,
    studentId: nat,
    responses: map<string, string>,
    filePath: string,
    status: ResponseStatus,
    responseDate: int)

  /** A user account; `password` holds a bcrypt hash. */
  datatype User = User(
    id: nat,
    email: string,
    password: string,
    faculty: Option<Faculty>,
    specialization: Option<Specialization>,
    year: Option<int>,
    role: Option<UserRole>)
}
