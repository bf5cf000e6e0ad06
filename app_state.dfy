/**
 * The client's application state: the screen on show with a back-stack
 * of the screens left behind, the signed-in user and token, the error
 * message and the cached data cleared on logout. The API client's token
 * is the field `apiToken`.
 */
module Navigation {
  import opened Wrappers
  import opened ClientModels

  datatype Screen =
    | Login
    | Register
    | Dashboard
    | Accounts
    | AccountDetail(accountId: string)
    | Transactions
    | TransactionDetail(transactionId: string)
    | NewTransaction
    | EditTransaction(transactionId: string)
    | Settings

  datatype User = User(id: string, username: string, email: Option<string>)

  /** `navigateTo` on values: the screen on show and the back-stack afterwards. */
  function Forward(current: Screen, stack: seq<Screen>, screen: Screen): (r: (Screen, seq<Screen>))
    ensures r.0 == screen
    ensures current == screen ==> r.1 == stack
    ensures current != screen ==> r.1 == stack + [current]
  {
    if current != screen then (screen, stack + [current]) else (current, stack)
  }

  /** `navigateBack` on values: whether it moved, and the screen and back-stack afterwards. */
  function Back(current: Screen, stack: seq<Screen>): (r: (bool, Screen, seq<Screen>))
    ensures r.0 <==> stack != []
    ensures stack == [] ==> r == (false, current, stack)
    ensures stack != [] ==> r == (true, stack[|stack| - 1], stack[..|stack| - 1])
  {
    if stack != [] then (true, stack[|stack| - 1], stack[..|stack| - 1]) else (false, current, stack)
  }

  /** Going back undoes a navigation that moved. */
  lemma BackUndoesForward(current: Screen, stack: seq<Screen>, screen: Screen)
    requires current != screen
    ensures var (s, st) := Forward(current, stack, screen); Back(s, st) == (true, current, stack)
  {
    var (s, st) := Forward(current, stack, screen);
    assert st[..|st| - 1] == stack;
  }

  /** Navigating to the screen on show changes nothing. */
  lemma ForwardToCurrent(current: Screen, stack: seq<Screen>)
    ensures Forward(current, stack, current) == (current, stack)
  {
  }

  /** The screens visited, oldest first, ending with the one on show. */
  function History(current: Screen, stack: seq<Screen>): seq<Screen> {
    stack + [current]
  }

  /** Each navigation that moves adds one screen to the history and keeps the rest. */
  lemma ForwardExtendsHistory(current: Screen, stack: seq<Screen>, screen: Screen)
    requires current != screen
    ensures var (s, st) := Forward(current, stack, screen); History(s, st) == History(current, stack) + [screen]
  {
  }

  class AppState {
    var currentScreen: Screen
    var navigationStack: seq<Screen>
    var isLoggedIn: bool
    var currentUser: Option<User>
    var authToken: Option<string>
    var apiToken: Option<string>
    var isDarkTheme: bool
    var isLoading: bool
    var errorMessage: Option<string>
    var accountsTree: seq<TreeNode>
    var recentTransactions: seq<TransactionInfo>

    /** Signed out, on the login screen, with nothing cached. */
    predicate SignedOut()
      reads this
    {
      currentScreen == Login && navigationStack == [] && !isLoggedIn && currentUser == None &&
      authToken == None && apiToken == None && accountsTree == [] && recentTransactions == []
    }

    constructor ()
      ensures SignedOut()
      ensures !isDarkTheme && !isLoading && errorMessage == None
    {
      currentScreen := Login;
      navigationStack := [];
      isLoggedIn := false;
      currentUser := None;
      authToken := None;
      apiToken := None;
      isDarkTheme := false;
      isLoading := false;
      errorMessage := None;
      accountsTree := [];
      recentTransactions := [];
    }

    method NavigateTo(screen: Screen)
      modifies this`currentScreen, this`navigationStack
      ensures (currentScreen, navigationStack) == Forward(old(currentScreen), old(navigationStack), screen)
    {
      if currentScreen != screen {
        navigationStack := navigationStack + [currentScreen];
        currentScreen := screen;
      }
    }

    method NavigateBack() returns (moved: bool)
      modifies this`currentScreen, this`navigationStack
      ensures (moved, currentScreen, navigationStack) == Back(old(currentScreen), old(navigationStack))
    {
      if navigationStack != [] {
        currentScreen := navigationStack[|navigationStack| - 1];
        navigationStack := navigationStack[..|navigationStack| - 1];
        moved := true;
      } else {
        moved := false;
      }
    }

    method ClearNavigationStack()
      modifies this`navigationStack
      ensures navigationStack == []
    {
      navigationStack := [];
    }

    /** `setAuthenticated`: signed in, on the dashboard, with nothing to go back to. */
    method SetAuthenticated(token: string, user: User)
      modifies this`authToken, this`currentUser, this`isLoggedIn, this`apiToken, this`navigationStack, this`currentScreen
      ensures authToken == Some(token) && apiToken == Some(token) && currentUser == Some(user) && isLoggedIn
      ensures navigationStack == [] && currentScreen == Dashboard
    {
      authToken := Some(token);
      currentUser := Some(user);
      isLoggedIn := true;
      apiToken := Some(token);
      ClearNavigationStack();
      currentScreen := Dashboard;
    }

    /** `logout`: back to the signed-out state; the theme and the error message stay. */
    method Logout()
      modifies this`authToken, this`currentUser, this`isLoggedIn, this`apiToken, this`accountsTree,
               this`recentTransactions, this`navigationStack, this`currentScreen
      ensures SignedOut()
    {
      authToken := None;
      currentUser := None;
      isLoggedIn := false;
      apiToken := None;
      accountsTree := [];
      recentTransactions := [];
      ClearNavigationStack();
      currentScreen := Login;
    }

    method ShowError(message: string)
      modifies this`errorMessage
      ensures errorMessage == Some(message)
    {
      errorMessage := Some(message);
    }

    method ClearError()
      modifies this`errorMessage
      ensures errorMessage == None
    {
      errorMessage := None;
    }
  }
}
