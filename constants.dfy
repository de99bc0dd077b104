/** The fixed tables and seed records. */
module Constants {
  import opened Wrappers
  import opened Types

  /** The navigation menu and the roles allowed to see each entry. */
  const MenuItems: seq<MenuItem> := [
    MenuItem("Dashboard", "/dashboard", "layout-dashboard", [Admin, Manager, UserRole]),
    MenuItem("Users", "/users", "users", [Admin, Manager]),
    MenuItem("Dispensaries", "/dispensaries", "building-store", [Admin, Manager, UserRole]),
    MenuItem("Service Requests", "/service-requests", "clipboard-list", [Admin, Manager, UserRole]),
    MenuItem("Settings", "/settings", "settings", [Admin])
  ]

  /** The users the session context starts from when nothing is stored (timestamps in
      seconds since the epoch). */
  const InitialUsers: seq<User> := [
    User("user-001", "Admin User", "admin@myerssecurity.com", Admin, Active, 1672531200, "", "", "", ""),
    User("user-002", "Manager User", "manager@myerssecurity.com", Manager, Active, 1672617600, "", "", "", ""),
    User("user-003", "Regular User", "user@myerssecurity.com", UserRole, Active, 1672704000, "", "", "", "")
  ]

  /** The fallback list of the add and edit user pages when nothing is stored: a different
      seed from the session's, all created at the same instant, the regular user
      inactive. */
  const UsersData: seq<User> := [
    User("user-001", "Admin User", "admin@example.com", Admin, Active, 1672531200, "", "", "", ""),
    User("user-002", "Manager User", "manager@example.com", Manager, Active, 1672531200, "", "", "", ""),
    User("user-003", "Regular User", "user@example.com", UserRole, Inactive, 1672531200, "", "", "", "")
  ]

  /** The five requests the page starts from (timestamps in seconds since the epoch). */
  const Sr001 := ServiceRequest("sr-001", "Software Update Needed",
    "The POS system needs an urgent software update to version 2.5",
    Pending, High, 1686825000, None, "disp-001", "Green Leaf Dispensary",
    [ResponseNote("note-001", "We've scheduled the update for tomorrow morning", 1686838800, "user-002")])
  const Sr002 := ServiceRequest("sr-002", "Security System Malfunction",
    "The security cameras in the back room have stopped working",
    InProgress, High, 1686386700, None, "disp-002", "MediCanna",
    [ResponseNote("note-002", "Technician has been dispatched", 1686389400, "user-001"),
     ResponseNote("note-003", "Issue identified, waiting for replacement parts", 1686496800, "user-003")])
  const Sr003 := ServiceRequest("sr-003", "Internet Connection Issues",
    "Experiencing slow internet connection affecting sales transactions",
    Resolved, Medium, 1685981400, Some(1686137100), "disp-003", "Herbal Solutions",
    [ResponseNote("note-004", "Router has been reset", 1685984400, "user-002"),
     ResponseNote("note-005", "ISP confirmed service disruption, now resolved", 1686132900, "user-001")])
  const Sr004 := ServiceRequest("sr-004", "POS System Crash",
    "System crashes when processing large orders",
    Pending, High, 1686734400, None, "disp-004", "Nature's Remedy", [])
  const Sr005 := ServiceRequest("sr-005", "Printer Not Working",
    "Receipt printer is not connecting to the system",
    InProgress, Low, 1686663600, None, "disp-001", "Green Leaf Dispensary",
    [ResponseNote("note-006", "Checking printer drivers", 1686665400, "user-003")])

  const StaticRequests: seq<ServiceRequest> := [Sr001, Sr002, Sr003, Sr004, Sr005]
}
