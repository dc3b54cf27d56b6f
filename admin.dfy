/** The administrator's dashboard (components/AdminDashboard.tsx): the user
    table with its search box, adding and deleting users, the staff
    allocation cards per year and the table's details column. */
module AdminDashboard {
  import opened Types
  import opened Seqs
  import opened Text
  import Api

  // ---------------------------------------------------------------------
  // Search

  function MatchesUser(lower: string): User -> bool {
    (u: User) => Contains(ToLower(u.name), lower) || Contains(ToLower(u.email), lower)
  }

  /** `filteredUsers`: exactly the users whose lower-cased name or email
      contains the lower-cased term, in table order. */
  function FilteredUsers(users: seq<User>, term: string): (r: seq<User>)
    ensures forall i :: 0 <= i < |r| ==> r[i] in users && MatchesUser(ToLower(term))(r[i])
    ensures forall i :: 0 <= i < |users| && MatchesUser(ToLower(term))(users[i]) ==> users[i] in r
  {
    FilterMembers(users, MatchesUser(ToLower(term)));
    Filter(users, MatchesUser(ToLower(term)))
  }

  /** An empty search box lists every user. */
  lemma EmptyTermKeepsAll(users: seq<User>)
    ensures FilteredUsers(users, "") == users
  {
    forall i | 0 <= i < |users| ensures MatchesUser(ToLower(""))(users[i]) {
      ContainsEmpty(ToLower(users[i].name));
    }
    FilterAll(users, MatchesUser(ToLower("")));
  }

  // ---------------------------------------------------------------------
  // Adding and deleting users

  /** The add-user modal's fields. */
  datatype UserForm = UserForm(name: string, email: string, role: Role, year: string, subject: string)

  /** The form as it starts and as it is reset after a create. */
  const EmptyUserForm: UserForm := UserForm("", "", Role.Student, "1", "")

  /** `handleAddUser`: with a name and an email the user is created, the
      table re-reads the store's users, the modal closes and the form is
      reset; without both nothing happens. */
  method AddUser(store: Api.Store, form: UserForm, shown: seq<User>, modalOpen: bool, freshId: int)
    returns (nowShown: seq<User>, nowForm: UserForm, nowOpen: bool)
    modifies store
    ensures form.name == "" || form.email == "" ==>
      nowShown == shown && nowForm == form && nowOpen == modalOpen && store.users == old(store.users)
    ensures form.name != "" && form.email != "" ==>
      && store.users == old(store.users) + [User(freshId, form.name, form.email, form.role, form.year, form.subject)]
      && nowShown == store.users
      && nowForm == EmptyUserForm
      && !nowOpen
    ensures store.students == old(store.students) && store.subjects == old(store.subjects)
    ensures store.marks == old(store.marks) && store.achievements == old(store.achievements)
    ensures store.settings == old(store.settings) && store.listeners == old(store.listeners)
  {
    if form.name != "" && form.email != "" {
      var _ := store.CreateUser(Api.UserDraft(form.name, form.email, form.role, form.year, form.subject), freshId);
      nowShown := store.users;
      nowForm := EmptyUserForm;
      nowOpen := false;
    } else {
      nowShown := shown;
      nowForm := form;
      nowOpen := modalOpen;
    }
  }

  /** `handleDeleteUser`: only once confirmed, the user goes from the store
      and the table drops every row with that id. */
  method DeleteUser(store: Api.Store, shown: seq<User>, id: int, confirmed: bool) returns (nowShown: seq<User>)
    modifies store
    ensures !confirmed ==> nowShown == shown && store.users == old(store.users)
    ensures confirmed ==>
      && nowShown == Api.WithoutUser(shown, id)
      && store.users == Api.WithoutUser(old(store.users), id)
    ensures store.students == old(store.students) && store.subjects == old(store.subjects)
    ensures store.marks == old(store.marks) && store.achievements == old(store.achievements)
    ensures store.settings == old(store.settings) && store.listeners == old(store.listeners)
  {
    if confirmed {
      var _ := store.DeleteUser(id);
      nowShown := Api.WithoutUser(shown, id);
    } else {
      nowShown := shown;
    }
  }

  // ---------------------------------------------------------------------
  // Allocation and the details column

  function StaffOfYear(y: nat): User -> bool {
    (u: User) => u.role == Staff && u.year == NatToString(y)
  }

  /** The allocation card of year `y`: exactly the staff whose year is `y`
      written out, in table order. */
  function Allocation(users: seq<User>, y: nat): (r: seq<User>)
    ensures forall i :: 0 <= i < |r| ==> r[i] in users && r[i].role == Staff && r[i].year == NatToString(y)
    ensures forall i :: 0 <= i < |users| && users[i].role == Staff && users[i].year == NatToString(y) ==> users[i] in r
  {
    FilterMembers(users, StaffOfYear(y));
    Filter(users, StaffOfYear(y))
  }

  /** No staff member appears on two cards. */
  lemma AllocationDisjoint(users: seq<User>, y1: nat, y2: nat, u: User)
    requires y1 != y2
    requires u in Allocation(users, y1)
    ensures u !in Allocation(users, y2)
  {
    if u in Allocation(users, y2) {
      var i :| 0 <= i < |Allocation(users, y1)| && Allocation(users, y1)[i] == u;
      var j :| 0 <= j < |Allocation(users, y2)| && Allocation(users, y2)[j] == u;
      NatToStringInjective(y1, y2);
    }
  }

  /** The details column: the year for a student, otherwise the subject,
      or a dash when there is none. */
  function DetailsColumn(u: User): (r: string)
    ensures u.role == Role.Student ==> r == "Year " + u.year
    ensures u.role != Role.Student && u.subject != "" ==> r == u.subject
    ensures u.role != Role.Student && u.subject == "" ==> r == "-"
  {
    if u.role == Role.Student then "Year " + u.year
    else if u.subject != "" then u.subject else "-"
  }

  /** The column is never blank. */
  lemma DetailsNeverBlank(u: User)
    ensures DetailsColumn(u) != ""
  {
  }
}
