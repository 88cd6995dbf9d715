/** The persisted entities that the services and the data-access functions work on. */
module Models {

  import opened Wrappers

  /** `UserState`. `Unlisted` stands for any stored state value outside the six named ones. */
  datatype UserState =
    | New
    | Onboarding
    | Active
    | Blocked
    | RateLimited
    | HasPendingMessage
    | Unlisted(name: string)

  /** `Role`; only `teacher` is assigned by the code modelled here, the others are kept by name. */
  datatype Role = Teacher | OtherRole(name: string)

  /** A row of the users table. `id` is the primary key given by the database. */
  datatype User = User(id: nat, waId: string, name: Option<string>, state: UserState, role: Role)

  /** A row of the classes table: a (subject, grade level) pair. */
  datatype Class = Class(id: nat, subject: string, grade: string)

  /** A row of the teachers_classes join table. */
  datatype TeacherClass = TeacherClass(teacherId: nat, classId: nat)

  /** A row of the messages table; rows are kept in creation order. */
  datatype Message = Message(userId: nat, role: string, content: string)
}
