// The request DTOs the services accept. A nullable field is an Option;
// a field the bean validation marks @NotNull or @NotBlank is a plain value.
module Requests {
  import opened Common
  import opened Domain

  /** `TaskRequestDto`: the project id is required, everything else may be null. */
  datatype TaskRequest = TaskRequest(
    title: string,
    description: Option<string>,
    status: Option<TaskStatus>,
    dueDate: Option<Time>,
    projectId: Id,
    assignedDeveloperId: Option<Id>)

  /** `BulkTaskUpdateDto`: each null field leaves that field of the tasks alone. */
  datatype BulkTaskUpdate = BulkTaskUpdate(
    status: Option<TaskStatus>,
    assignedDeveloperId: Option<Id>,
    dueDate: Option<Time>)

  /** `DeveloperRequestDto`: a null skill set leaves the skills unchanged on update. */
  datatype DeveloperRequest = DeveloperRequest(
    name: string,
    email: string,
    skills: Option<set<Option<string>>>)

  /** `ProjectRequestDto`. */
  datatype ProjectRequest = ProjectRequest(
    name: string,
    description: Option<string>,
    deadline: Time,
    status: Option<ProjectStatus>)

  /** `UserUpdateDto`: each null field is left unchanged. */
  datatype UserUpdate = UserUpdate(
    firstName: Option<string>,
    lastName: Option<string>,
    email: Option<string>)

  /** `UserRegistrationDto`. */
  datatype Registration = Registration(
    username: string,
    email: string,
    password: string,
    firstName: string,
    lastName: string)

  /** `PasswordChangeDto`. */
  datatype PasswordChange = PasswordChange(
    currentPassword: string,
    newPassword: string,
    confirmPassword: string)
}
