/**
 * The tab strip of the main screen: the Accounts tab, which cannot be
 * closed and stays first, followed by one register tab per opened
 * account, and the id of the tab on show.
 */
module MainTabs {
  import opened Wrappers

  datatype Tab = Accounts | AccountRegisterTab(accountId: string, accountName: string)

  const AccountsId := "accounts"

  function Id(t: Tab): string {
    match t
    case Accounts => AccountsId
    case AccountRegisterTab(accountId, _) => accountId
  }

  function Title(t: Tab): string {
    match t
    case Accounts => "Accounts"
    case AccountRegisterTab(_, accountName) => accountName
  }

  /** Only register tabs can be closed. */
  predicate Closeable(t: Tab) {
    t.AccountRegisterTab?
  }

  /** `indexOfFirst { it.id == id }`, `None` for -1. */
  function IndexOf(tabs: seq<Tab>, id: string): (r: Option<nat>)
    ensures r.Some? ==> r.value < |tabs| && Id(tabs[r.value]) == id && forall k :: 0 <= k < r.value ==> Id(tabs[k]) != id
    ensures r.None? ==> forall k :: 0 <= k < |tabs| ==> Id(tabs[k]) != id
  {
    if tabs == [] then None
    else if Id(tabs[0]) == id then Some(0)
    else match IndexOf(tabs[1..], id)
      case None => None
      case Some(k) => Some(k + 1)
  }

  /** `filter { it.id != id }`: the strip with every tab of the given id removed, the others in order. */
  function Without(tabs: seq<Tab>, id: string): (r: seq<Tab>)
    ensures |r| <= |tabs|
  {
    if tabs == [] then []
    else if Id(tabs[0]) == id then Without(tabs[1..], id)
    else [tabs[0]] + Without(tabs[1..], id)
  }

  /** The tabs left are exactly those whose id differs. */
  lemma {:induction false} WithoutMembers(tabs: seq<Tab>, id: string)
    ensures forall t :: t in Without(tabs, id) <==> t in tabs && Id(t) != id
  {
    if tabs != [] {
      WithoutMembers(tabs[1..], id);
      assert tabs == [tabs[0]] + tabs[1..];
    }
  }

  predicate DistinctIds(tabs: seq<Tab>) {
    forall i, j :: 0 <= i < j < |tabs| ==> Id(tabs[i]) != Id(tabs[j])
  }

  /** The strip starts with the Accounts tab, no two tabs share an id, and the active id is a tab's. */
  predicate Valid(tabs: seq<Tab>, active: string) {
    |tabs| >= 1 && tabs[0] == Accounts && DistinctIds(tabs) && IndexOf(tabs, active).Some?
  }

  /** `openAccountRegister` on values: the tab strip and the active id afterwards. */
  function Opened(tabs: seq<Tab>, active: string, accountId: string, accountName: string): (r: (seq<Tab>, string))
    ensures r.1 == accountId
    ensures IndexOf(tabs, accountId).Some? ==> r.0 == tabs
    ensures IndexOf(tabs, accountId).None? ==> r.0 == tabs + [AccountRegisterTab(accountId, accountName)]
  {
    if IndexOf(tabs, accountId).Some? then (tabs, accountId)
    else (tabs + [AccountRegisterTab(accountId, accountName)], accountId)
  }

  /** `closeTab` on values: the tab strip and the active id afterwards. */
  function Closed(tabs: seq<Tab>, active: string, tabId: string): (seq<Tab>, string) {
    match IndexOf(tabs, tabId)
    case None => (tabs, active)
    case Some(i) =>
      if !Closeable(tabs[i]) then (tabs, active)
      else
        var rest := Without(tabs, tabId);
        var next := if active != tabId then active
                    else if i > 0 && i - 1 < |rest| then Id(rest[i - 1])
                    else AccountsId;
        (rest, next)
  }

  lemma DistinctTail(tabs: seq<Tab>)
    requires |tabs| >= 1 && DistinctIds(tabs)
    ensures DistinctIds(tabs[1..])
    ensures forall t :: t in tabs[1..] ==> Id(t) != Id(tabs[0])
  {
    forall a, b | 0 <= a < b < |tabs[1..]|
      ensures Id(tabs[1..][a]) != Id(tabs[1..][b])
    {
      assert tabs[1..][a] == tabs[a + 1] && tabs[1..][b] == tabs[b + 1];
    }
    forall t | t in tabs[1..]
      ensures Id(t) != Id(tabs[0])
    {
      var k :| 0 <= k < |tabs[1..]| && tabs[1..][k] == t;
      assert tabs[1..][k] == tabs[k + 1];
    }
  }

  /** Removing the only tab with an id leaves the others in their order. */
  lemma {:induction false} WithoutUnique(tabs: seq<Tab>, i: nat)
    requires i < |tabs| && DistinctIds(tabs)
    ensures Without(tabs, Id(tabs[i])) == tabs[..i] + tabs[i + 1..]
    decreases i
  {
    var id := Id(tabs[i]);
    var tail := tabs[1..];
    if i == 0 {
      WithoutHead(tabs);
      assert tabs[..0] + tabs[1..] == tail;
    } else {
      assert tail[i - 1] == tabs[i];
      var rest := Without(tail, id);
      assert rest == tail[..i - 1] + tail[i..] by {
        DistinctTail(tabs);
        WithoutUnique(tail, i - 1);
      }
      assert Without(tabs, id) == [tabs[0]] + rest by {
        assert Id(tabs[0]) != id;
      }
      assert tabs[..i] + tabs[i + 1..] == [tabs[0]] + rest by {
        assert tabs[..i] == [tabs[0]] + tail[..i - 1];
        assert tabs[i + 1..] == tail[i..];
      }
    }
  }

  lemma WithoutHead(tabs: seq<Tab>)
    requires |tabs| >= 1 && DistinctIds(tabs)
    ensures Without(tabs, Id(tabs[0])) == tabs[1..]
  {
    DistinctTail(tabs);
    NoneWithout(tabs[1..], Id(tabs[0]));
  }

  lemma {:induction false} NoneWithout(tabs: seq<Tab>, id: string)
    requires forall t :: t in tabs ==> Id(t) != id
    ensures Without(tabs, id) == tabs
  {
    if tabs != [] {
      var tail := tabs[1..];
      assert forall t :: t in tail ==> t in tabs;
      NoneWithout(tail, id);
      assert Id(tabs[0]) != id;
      assert Without(tabs, id) == [tabs[0]] + Without(tail, id);
      assert tabs == [tabs[0]] + tail;
    }
  }

  lemma DistinctPieces(tabs: seq<Tab>, i: nat)
    requires i < |tabs| && DistinctIds(tabs)
    ensures DistinctIds(tabs[..i] + tabs[i + 1..])
    ensures forall t :: t in tabs[..i] + tabs[i + 1..] ==> t in tabs && Id(t) != Id(tabs[i])
  {
    var r := tabs[..i] + tabs[i + 1..];
    forall a, b | 0 <= a < b < |r|
      ensures Id(r[a]) != Id(r[b])
    {
      var a' := if a < i then a else a + 1;
      var b' := if b < i then b else b + 1;
      assert r[a] == tabs[a'] && r[b] == tabs[b'];
    }
  }

  /** A register tab whose id is new can be appended and shown. */
  lemma AppendValid(tabs: seq<Tab>, active: string, n: Tab)
    requires Valid(tabs, active) && IndexOf(tabs, Id(n)).None?
    ensures Valid(tabs + [n], Id(n))
  {
    var t := tabs + [n];
    forall i, j | 0 <= i < j < |t|
      ensures Id(t[i]) != Id(t[j])
    {
      if j == |tabs| {
        assert t[i] == tabs[i];
      } else {
        assert t[i] == tabs[i] && t[j] == tabs[j];
      }
    }
    IndexOfLast(tabs, n);
  }

  /** Opening a register keeps the strip valid and never duplicates a tab. */
  lemma OpenedValid(tabs: seq<Tab>, active: string, accountId: string, accountName: string)
    requires Valid(tabs, active)
    ensures Valid(Opened(tabs, active, accountId, accountName).0, Opened(tabs, active, accountId, accountName).1)
  {
    if IndexOf(tabs, accountId).None? {
      AppendValid(tabs, active, AccountRegisterTab(accountId, accountName));
    }
  }

  lemma IndexOfLast(tabs: seq<Tab>, n: Tab)
    requires IndexOf(tabs, Id(n)).None?
    ensures IndexOf(tabs + [n], Id(n)) == Some(|tabs|)
  {
    if tabs != [] {
      assert (tabs + [n])[1..] == tabs[1..] + [n];
      IndexOfLast(tabs[1..], n);
    }
  }

  lemma IndexOfPresent(tabs: seq<Tab>, t: Tab)
    requires t in tabs
    ensures IndexOf(tabs, Id(t)).Some?
  {
    if tabs[0] != t {
      IndexOfPresent(tabs[1..], t);
    }
  }

  /**
   * Closing keeps the strip valid: the Accounts tab stays first, ids stay
   * distinct, and the active id is still a tab's.
   */
  lemma ClosedValid(tabs: seq<Tab>, active: string, tabId: string)
    requires Valid(tabs, active)
    ensures var (t, a) := Closed(tabs, active, tabId); Valid(t, a)
  {
    var (t, a) := Closed(tabs, active, tabId);
    match IndexOf(tabs, tabId)
    case None =>
    case Some(i) =>
      if Closeable(tabs[i]) {
        assert i > 0;
        WithoutUnique(tabs, i);
        DistinctPieces(tabs, i);
        assert t == tabs[..i] + tabs[i + 1..];
        assert t[0] == Accounts;
        if active != tabId {
          var k := IndexOf(tabs, active).value;
          assert k != i;
          assert tabs[k] in t by {
            if k < i { assert t[k] == tabs[k]; } else { assert t[k - 1] == tabs[k]; }
          }
          IndexOfPresent(t, tabs[k]);
        } else {
          assert t[i - 1] == tabs[i - 1];
          IndexOfPresent(t, t[i - 1]);
        }
      }
  }

  /**
   * Closing a tab removes exactly that tab; closing the active tab shows
   * the tab that stood just before it.
   */
  lemma CloseEffect(tabs: seq<Tab>, active: string, i: nat)
    requires Valid(tabs, active) && 0 < i < |tabs|
    ensures var (t, a) := Closed(tabs, active, Id(tabs[i]));
      t == tabs[..i] + tabs[i + 1..] &&
      a == (if active == Id(tabs[i]) then Id(tabs[i - 1]) else active)
  {
    var id := Id(tabs[i]);
    assert IndexOf(tabs, id) == Some(i) by {
      var k := IndexOf(tabs, id).value;
      assert k == i;
    }
    assert Closeable(tabs[i]) by {
      assert tabs[i] != Accounts by {
        assert Id(tabs[0]) != Id(tabs[i]);
      }
    }
    WithoutUnique(tabs, i);
    var rest := tabs[..i] + tabs[i + 1..];
    assert rest[i - 1] == tabs[i - 1];
  }

  /** Closing the Accounts tab, or an id no tab has, changes nothing. */
  lemma CloseRefused(tabs: seq<Tab>, active: string, tabId: string)
    requires Valid(tabs, active)
    requires tabId == AccountsId || IndexOf(tabs, tabId).None?
    ensures Closed(tabs, active, tabId) == (tabs, active)
  {
    if tabId == AccountsId {
      assert IndexOf(tabs, tabId) == Some(0);
    }
  }

  /** Opening a register that had no tab and closing it again restores the strip. */
  lemma CloseUndoesOpen(tabs: seq<Tab>, active: string, accountId: string, accountName: string)
    requires Valid(tabs, active) && IndexOf(tabs, accountId).None?
    ensures Opened(tabs, active, accountId, accountName) == (tabs + [AccountRegisterTab(accountId, accountName)], accountId)
    ensures Closed(tabs + [AccountRegisterTab(accountId, accountName)], accountId, accountId) == (tabs, Id(tabs[|tabs| - 1]))
  {
    var n := AccountRegisterTab(accountId, accountName);
    var t := tabs + [n];
    var k := |tabs|;
    assert Valid(t, accountId) by {
      AppendValid(tabs, active, n);
    }
    assert Closed(t, accountId, accountId) == (t[..k] + t[k + 1..], Id(t[k - 1])) by {
      assert Id(t[k]) == accountId;
      CloseEffect(t, accountId, k);
    }
    assert t[..k] + t[k + 1..] == tabs;
    assert t[k - 1] == tabs[k - 1];
  }

  /** The tab state of the main screen. */
  class TabStrip {
    var tabs: seq<Tab>
    var activeTabId: string

    constructor ()
      ensures tabs == [Accounts] && activeTabId == AccountsId
      ensures Valid(tabs, activeTabId)
    {
      tabs := [Accounts];
      activeTabId := AccountsId;
    }

    /** `openAccountRegister`: activate the account's tab, adding it first if there is none. */
    method OpenAccountRegister(accountId: string, accountName: string)
      modifies this
      ensures (tabs, activeTabId) == Opened(old(tabs), old(activeTabId), accountId, accountName)
    {
      var existing := IndexOf(tabs, accountId);
      if existing.Some? {
        activeTabId := accountId;
      } else {
        tabs := tabs + [AccountRegisterTab(accountId, accountName)];
        activeTabId := accountId;
      }
    }

    /** `closeTab`: remove a closeable tab, moving to the one before it if it was on show. */
    method CloseTab(tabId: string)
      modifies this
      ensures (tabs, activeTabId) == Closed(old(tabs), old(activeTabId), tabId)
    {
      var found := IndexOf(tabs, tabId);
      if found.None? {
        return;
      }
      var tabIndex := found.value;
      if !Closeable(tabs[tabIndex]) {
        return;
      }
      tabs := Without(tabs, tabId);
      if activeTabId == tabId {
        activeTabId := if tabIndex > 0 && tabIndex - 1 < |tabs| then Id(tabs[tabIndex - 1]) else AccountsId;
      }
    }
  }
}
