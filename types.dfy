/** The records of the admin panel, with the fields the pages actually read and write
    (some of them are missing from the declared TypeScript interfaces). Timestamps are
    integers; optional text fields hold "" when absent. */
module Types {
  import opened Wrappers

  datatype Role = Admin | Manager | UserRole {
    /** The role's string value as stored and displayed lower-case. */
    function Name(): string {
      match this
      case Admin => "admin"
      case Manager => "manager"
      case UserRole => "user"
    }
  }

  datatype UserStatus = Active | Inactive

  /** A principal. `firstName`, `lastName`, `password` and `phone` are used only by the
      support-engineer pages. */
  datatype User = User(
    id: string,
    name: string,
    email: string,
    role: Role,
    status: UserStatus,
    createdAt: int,
    firstName: string,
    lastName: string,
    password: string,
    phone: string)

  datatype RequestStatus = Pending | InProgress | Resolved {
    function Name(): string {
      match this
      case Pending => "pending"
      case InProgress => "in-progress"
      case Resolved => "resolved"
    }
  }

  datatype Priority = Low | Medium | High {
    function Name(): string {
      match this
      case Low => "low"
      case Medium => "medium"
      case High => "high"
    }
  }

  datatype ResponseNote = ResponseNote(id: string, text: string, createdAt: int, createdBy: string)

  datatype ServiceRequest = ServiceRequest(
    id: string,
    title: string,
    description: string,
    status: RequestStatus,
    priority: Priority,
    createdAt: int,
    resolvedAt: Option<int>,
    dispensaryId: string,
    dispensaryName: string,
    responseNotes: seq<ResponseNote>)

  datatype DispensaryCategory = Medical | Recreational | Both

  datatype DispensaryStatus = Open | UnderMaintenance | Closed

  datatype Dispensary = Dispensary(
    id: string,
    name: string,
    address: string,
    category: DispensaryCategory,
    status: DispensaryStatus,
    engineers: seq<string>,
    createdAt: int,
    serviceRequests: seq<ServiceRequest>)

  datatype KbCategory = Services | CaseStudies | Testimonials

  datatype KbStatus = KbActive | KbInactive

  datatype KnowledgeBaseEntry = KnowledgeBaseEntry(
    id: string,
    title: string,
    category: KbCategory,
    description: string,
    videoUrl: string,
    blogUrl: string,
    fileUrl: string,
    status: KbStatus,
    createdAt: int)

  datatype AuthState = AuthState(isAuthenticated: bool, user: Option<User>, loading: bool)

  datatype ThemeMode = Light | Dark

  datatype ThemeState = ThemeState(mode: ThemeMode)

  datatype MenuItem = MenuItem(title: string, path: string, icon: string, allowedRoles: seq<Role>)
}
