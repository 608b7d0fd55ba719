/**
 * The dashboard component's state (App.jsx, lines 180-345) and the handlers
 * that edit it in place: the weekend-day toggle and the holiday add/remove
 * handlers (lines 570-590) and sign-out (lines 627-637).
 *
 * Each React state hook is a field of `App`. `State` reads them as one value,
 * and each handler is specified by a function from the old value to the new.
 */
module Dashboard {
  import opened Wrappers
  import opened Json
  import opened SortedLists
  import TeamLogger

  /** `{ accessToken, tokenType, account }`. */
  datatype Auth = Auth(accessToken: string, tokenType: string, account: Json)

  /** The signed-out session's credentials. */
  const SignedOutAuth := Auth("", "Bearer", Null)

  datatype LoginForm = LoginForm(username: string, password: string)

  /** The preferences persisted together under the salary-preferences key. */
  datatype SalaryPreferences = SalaryPreferences(
    hourlyRate: string,
    baseSalary: string,
    salaryCurrency: string,
    enableSalary: bool,
    enableAttendanceBonus: bool,
    enableTimeManagementBonus: bool,
    enableClientBonus: bool,
    enablePerformanceBonus: bool)

  /** The working-calendar inputs. */
  datatype CalendarPreferences = CalendarPreferences(
    weekendDays: seq<int>,
    dailyTargetHours: real,
    holidayInput: string,
    holidays: seq<string>)

  /** Everything else the component holds: navigation, sign-in and the last sync. */
  datatype Session = Session(
    activeSection: string,
    loggedHours: string,
    showSalary: bool,
    auth: Auth,
    loginForm: LoginForm,
    loginLoading: bool,
    loginError: string,
    teamLoggerLoading: bool,
    teamLoggerError: string,
    teamLoggerTotals: Option<TeamLogger.TotalTime>,
    lastSyncedAt: Option<int>)

  datatype AppState = AppState(calendar: CalendarPreferences, salary: SalaryPreferences, session: Session)

  /** Weekend days in numeric order and holidays in string order, each without duplicates. */
  ghost predicate ListsInOrder(s: AppState) {
    StrictlySorted(IntLess, s.calendar.weekendDays) && StrictlySorted(StringLess, s.calendar.holidays)
  }

  /** The state on first render, given what was read back from storage. */
  function InitialState(storedAuth: Auth, storedSalary: SalaryPreferences): (s: AppState)
    ensures s.calendar.weekendDays == [0, 6] && s.calendar.holidays == []
    ensures s.calendar.dailyTargetHours == 8.0 && s.calendar.holidayInput == ""
    ensures s.salary == storedSalary && s.session.auth == storedAuth
    ensures s.session.activeSection == "overview" && s.session.loggedHours == "" && !s.session.showSalary
    ensures s.session.loginForm == LoginForm("", "") && !s.session.loginLoading && s.session.loginError == ""
    ensures !s.session.teamLoggerLoading && s.session.teamLoggerError == ""
    ensures s.session.teamLoggerTotals.None? && s.session.lastSyncedAt.None?
  {
    AppState(
      CalendarPreferences([0, 6], 8.0, "", []),
      storedSalary,
      Session("overview", "", false, storedAuth, LoginForm("", ""), false, "", false, "", None, None))
  }

  lemma InitialStateInOrder(storedAuth: Auth, storedSalary: SalaryPreferences)
    ensures ListsInOrder(InitialState(storedAuth, storedSalary))
  {
  }

  // ------------------------------------------------------- weekend toggle

  /** `handleToggleWeekend`: the day leaves the list if present, else joins it in order. */
  function ToggledWeekend(s: AppState, dayIndex: int): (t: AppState)
    ensures t.salary == s.salary && t.session == s.session
    ensures t.calendar == s.calendar.(weekendDays := t.calendar.weekendDays)
    ensures dayIndex in t.calendar.weekendDays <==> dayIndex !in s.calendar.weekendDays
    ensures forall d :: d != dayIndex ==> (d in t.calendar.weekendDays <==> d in s.calendar.weekendDays)
  {
    s.(calendar := s.calendar.(weekendDays := Toggle(IntLess, s.calendar.weekendDays, dayIndex)))
  }

  lemma ToggledWeekendInOrder(s: AppState, dayIndex: int)
    requires ListsInOrder(s)
    ensures ListsInOrder(ToggledWeekend(s, dayIndex))
  {
    IntLessIsStrictOrder();
    ToggleKeepsSorted(IntLess, s.calendar.weekendDays, dayIndex);
  }

  /** Toggling the same day twice restores the state. */
  lemma ToggleWeekendTwice(s: AppState, dayIndex: int)
    requires ListsInOrder(s)
    ensures ToggledWeekend(ToggledWeekend(s, dayIndex), dayIndex) == s
  {
    IntLessIsStrictOrder();
    ToggleTwice(IntLess, s.calendar.weekendDays, dayIndex);
  }

  // ------------------------------------------------------- holiday editor

  /** dayjs's text for a date it could not parse. */
  const InvalidDate := "Invalid Date"

  /** Whether `handleAddHoliday` gets past its two early returns. */
  predicate AcceptsHoliday(input: string, format: string -> string) {
    input != "" && format(input) != "" && format(input) != InvalidDate
  }

  /**
   * `handleAddHoliday`, `format` standing for `dayjs(input).format("YYYY-MM-DD")`:
   * an empty input or one dayjs cannot read changes nothing; otherwise its date
   * joins the holidays in order unless already listed, and the input is cleared.
   */
  function HolidayAdded(s: AppState, format: string -> string): (t: AppState)
    ensures !AcceptsHoliday(s.calendar.holidayInput, format) ==> t == s
    ensures AcceptsHoliday(s.calendar.holidayInput, format) ==>
            var date := format(s.calendar.holidayInput);
            && t.salary == s.salary && t.session == s.session
            && t.calendar == s.calendar.(holidayInput := "", holidays := t.calendar.holidays)
            && (forall h :: h in t.calendar.holidays <==> h in s.calendar.holidays || h == date)
            && (date in s.calendar.holidays ==> t.calendar.holidays == s.calendar.holidays)
  {
    var input := s.calendar.holidayInput;
    if input == "" then s
    else
      var formatted := format(input);
      if formatted == "" || formatted == InvalidDate then s
      else
        var holidays := s.calendar.holidays;
        var next := if formatted in holidays then holidays else Insert(StringLess, holidays, formatted);
        assert forall h :: h in next <==> h in multiset(next);
        s.(calendar := s.calendar.(holidays := next, holidayInput := ""))
  }

  lemma HolidayAddedInOrder(s: AppState, format: string -> string)
    requires ListsInOrder(s)
    ensures ListsInOrder(HolidayAdded(s, format))
  {
    if AcceptsHoliday(s.calendar.holidayInput, format) {
      var date := format(s.calendar.holidayInput);
      if date !in s.calendar.holidays {
        StringLessIsStrictOrder();
        InsertKeepsSorted(StringLess, s.calendar.holidays, date);
      }
    }
  }

  /** Adding a holiday grows the list by one date at most, and not at all for a listed date. */
  lemma HolidayAddedGrowsByOne(s: AppState, format: string -> string)
    requires AcceptsHoliday(s.calendar.holidayInput, format)
    ensures var date := format(s.calendar.holidayInput);
            |HolidayAdded(s, format).calendar.holidays|
            == |s.calendar.holidays| + (if date in s.calendar.holidays then 0 else 1)
  {
  }

  /** `handleRemoveHoliday`: that date leaves the list; nothing else changes. */
  function HolidayRemoved(s: AppState, date: string): (t: AppState)
    ensures t == s.(calendar := s.calendar.(holidays := t.calendar.holidays))
    ensures forall h :: h in t.calendar.holidays <==> h in s.calendar.holidays && h != date
  {
    s.(calendar := s.calendar.(holidays := Remove(s.calendar.holidays, date)))
  }

  lemma HolidayRemovedInOrder(s: AppState, date: string)
    requires ListsInOrder(s)
    ensures ListsInOrder(HolidayRemoved(s, date))
  {
    RemoveKeepsSorted(StringLess, s.calendar.holidays, date);
  }

  /** Removing a listed date drops exactly one entry; removing an unlisted one changes nothing. */
  lemma HolidayRemovedExactlyOne(s: AppState, date: string)
    requires ListsInOrder(s)
    ensures date in s.calendar.holidays ==>
            |HolidayRemoved(s, date).calendar.holidays| == |s.calendar.holidays| - 1
    ensures date !in s.calendar.holidays ==> HolidayRemoved(s, date) == s
  {
    if date in s.calendar.holidays {
      StringLessIsStrictOrder();
      RemoveOne(StringLess, s.calendar.holidays, date);
    } else {
      RemoveAbsent(s.calendar.holidays, date);
    }
  }

  /** Removing a holiday that was just added leaves the holiday list as it was. */
  lemma AddThenRemoveHoliday(s: AppState, format: string -> string)
    requires ListsInOrder(s) && AcceptsHoliday(s.calendar.holidayInput, format)
    requires format(s.calendar.holidayInput) !in s.calendar.holidays
    ensures var date := format(s.calendar.holidayInput);
            HolidayRemoved(HolidayAdded(s, format), date).calendar.holidays == s.calendar.holidays
  {
    RemoveInsert(StringLess, s.calendar.holidays, format(s.calendar.holidayInput));
  }

  // ------------------------------------------------------------- sign-out

  /** `handleSignOut`: the session's credentials, sync results and form reset; preferences kept. */
  function SignedOut(s: AppState): (t: AppState)
    ensures t.calendar == s.calendar && t.salary == s.salary
    ensures t.session.activeSection == s.session.activeSection
    ensures t.session.loginLoading == s.session.loginLoading
    ensures t.session.auth == SignedOutAuth && t.session.teamLoggerTotals.None? && t.session.lastSyncedAt.None?
    ensures t.session.teamLoggerError == "" && !t.session.teamLoggerLoading
    ensures t.session.loggedHours == "" && !t.session.showSalary
    ensures t.session.loginForm == LoginForm("", "") && t.session.loginError == ""
  {
    s.(session := s.session.(
      auth := SignedOutAuth,
      teamLoggerTotals := None,
      teamLoggerError := "",
      teamLoggerLoading := false,
      loggedHours := "",
      showSalary := false,
      lastSyncedAt := None,
      loginForm := LoginForm("", ""),
      loginError := ""))
  }

  /**
   * Signing out of the first render's state gives the first render's state
   * of a visitor with no stored credentials.
   */
  lemma SignOutOfInitialState(storedAuth: Auth, storedSalary: SalaryPreferences)
    ensures SignedOut(InitialState(storedAuth, storedSalary)) == InitialState(SignedOutAuth, storedSalary)
  {
  }

  /** Signing out twice is signing out once. */
  lemma SignOutIdempotent(s: AppState)
    ensures SignedOut(SignedOut(s)) == SignedOut(s)
  {
  }

  /** After sign-out, the state depends only on the preferences, the section and the login flag. */
  lemma SignOutForgetsSession(s1: AppState, s2: AppState)
    requires s1.calendar == s2.calendar && s1.salary == s2.salary
    requires s1.session.activeSection == s2.session.activeSection
    requires s1.session.loginLoading == s2.session.loginLoading
    ensures SignedOut(s1) == SignedOut(s2)
  {
  }

  // ------------------------------------------------------------ component

  /** The component's state hooks. */
  class App {
    var weekendDays: seq<int>
    var dailyTargetHours: real
    var holidayInput: string
    var holidays: seq<string>
    var activeSection: string
    var loggedHours: string
    var salary: SalaryPreferences
    var showSalary: bool
    var auth: Auth
    var loginForm: LoginForm
    var loginLoading: bool
    var loginError: string
    var teamLoggerLoading: bool
    var teamLoggerError: string
    var teamLoggerTotals: Option<TeamLogger.TotalTime>
    var lastSyncedAt: Option<int>

    function State(): AppState
      reads this
    {
      AppState(
        CalendarPreferences(weekendDays, dailyTargetHours, holidayInput, holidays),
        salary,
        Session(activeSection, loggedHours, showSalary, auth, loginForm, loginLoading, loginError,
                teamLoggerLoading, teamLoggerError, teamLoggerTotals, lastSyncedAt))
    }

    /** The handlers keep both lists in order (`ListsInOrder` of `State()`). */
    ghost predicate Valid()
      reads this
    {
      StrictlySorted(IntLess, weekendDays) && StrictlySorted(StringLess, holidays)
    }

    constructor (storedAuth: Auth, storedSalary: SalaryPreferences)
      ensures Valid() && State() == InitialState(storedAuth, storedSalary)
    {
      weekendDays := [0, 6];
      dailyTargetHours := 8.0;
      holidayInput := "";
      holidays := [];
      activeSection := "overview";
      loggedHours := "";
      salary := storedSalary;
      showSalary := false;
      auth := storedAuth;
      loginForm := LoginForm("", "");
      loginLoading := false;
      loginError := "";
      teamLoggerLoading := false;
      teamLoggerError := "";
      teamLoggerTotals := None;
      lastSyncedAt := None;
    }

    method ToggleWeekend(dayIndex: int)
      requires Valid()
      modifies this
      ensures Valid() && State() == ToggledWeekend(old(State()), dayIndex)
    {
      ToggledWeekendInOrder(State(), dayIndex);
      if dayIndex in weekendDays {
        weekendDays := Remove(weekendDays, dayIndex);
      } else {
        weekendDays := Insert(IntLess, weekendDays, dayIndex);
      }
    }

    method AddHoliday(format: string -> string)
      requires Valid()
      modifies this
      ensures Valid() && State() == HolidayAdded(old(State()), format)
    {
      HolidayAddedInOrder(State(), format);
      if holidayInput == "" {
        return;
      }
      var formatted := format(holidayInput);
      if formatted == "" || formatted == InvalidDate {
        return;
      }
      if formatted !in holidays {
        holidays := Insert(StringLess, holidays, formatted);
      }
      holidayInput := "";
    }

    method RemoveHoliday(date: string)
      requires Valid()
      modifies this
      ensures Valid() && State() == HolidayRemoved(old(State()), date)
    {
      HolidayRemovedInOrder(State(), date);
      holidays := Remove(holidays, date);
    }

    method SignOut()
      requires Valid()
      modifies this
      ensures Valid()
      ensures State() == SignedOut(old(State()))
    {
      SetLogin(SignedOutAuth, LoginForm("", ""), loginLoading, "");
      SetSync(false, "", None, None);
      SetView(activeSection, "", false);
    }

    /** Overwrites the sign-in hooks. */
    method SetLogin(newAuth: Auth, newForm: LoginForm, newLoading: bool, newError: string)
      modifies this
      ensures State() == old(State()).(session := old(State()).session.(
                auth := newAuth, loginForm := newForm, loginLoading := newLoading, loginError := newError))
    {
      auth := newAuth;
      loginForm := newForm;
      loginLoading := newLoading;
      loginError := newError;
    }

    /** Overwrites the hooks that hold the last sync's outcome. */
    method SetSync(loading: bool, error: string, totals: Option<TeamLogger.TotalTime>, syncedAt: Option<int>)
      modifies this
      ensures State() == old(State()).(session := old(State()).session.(
                teamLoggerLoading := loading, teamLoggerError := error,
                teamLoggerTotals := totals, lastSyncedAt := syncedAt))
    {
      teamLoggerLoading := loading;
      teamLoggerError := error;
      teamLoggerTotals := totals;
      lastSyncedAt := syncedAt;
    }

    /** Overwrites the navigation and salary-view hooks. */
    method SetView(section: string, hours: string, salaryShown: bool)
      modifies this
      ensures State() == old(State()).(session := old(State()).session.(
                activeSection := section, loggedHours := hours, showSalary := salaryShown))
    {
      activeSection := section;
      loggedHours := hours;
      showSalary := salaryShown;
    }
  }
}
