/**
 * The top-level state of App.tsx: the lock gate (`appState`), the wallet,
 * the transaction list, the bank-linking modal flag and the security toast,
 * and the handlers that update them. Each handler is one event, handled to
 * completion; whether `encryptToken` resolved and the `localStorage.setItem`
 * after it did not throw is an input of the sync handler (one `catch` takes
 * both failures), and the ids and timestamps the source draws from
 * `Math.random` and the clock are parameters.
 */
module App {
  import opened Wrappers
  import opened Types

  const Currency: string := "MXN"
  /** The opening balance and the amount of the welcome bonus. */
  const OpeningBalance: int := 1000000
  /** The amount credited by one bank sync. */
  const SyncAmount: int := 450000
  const SyncIdPrefix: string := "PLAID-SYNC-"
  const SecurityToastText: string := "Tokens Bancarios Encriptados con AES-256"

  const InitialWallet: UserWallet := UserWallet(OpeningBalance, Currency, "0xG0LD...88FF", Elite)

  /** The two seed transactions; `now` and `yesterday` stand for the clock readings. */
  function InitialTransactions(now: string, yesterday: string): seq<Transaction>
  {
    [ Transaction("GOLD-TX-WELCOME", OpeningBalance, Currency, now,
                  "Bono de Bienvenida Gold Elite", Credit, Completed),
      Transaction("GOLD-TX-782", 15000, Currency, yesterday,
                  "Membresía Founder Anual", Debit, Completed) ]
  }

  datatype AppModel = AppModel(
    appState: AppState,
    wallet: UserWallet,
    transactions: seq<Transaction>,
    showPlaidModal: bool,
    securityToast: Option<string>,
    toastTimers: nat)  // toast-clearing timers that have not fired

  function InitialApp(now: string, yesterday: string): AppModel
  {
    AppModel(BiometricLock, InitialWallet, InitialTransactions(now, yesterday), false, None, 0)
  }

  /** What is on screen: only the lock screen while locked, otherwise the dashboard and maybe the modal. */
  datatype Screen = LockScreen | DashboardScreen(plaidModal: bool)

  function Render(m: AppModel): Screen
  {
    if m.appState == BiometricLock then LockScreen else DashboardScreen(m.showPlaidModal)
  }

  /** The transaction a successful sync adds; `randomPart` stands for the random id suffix. */
  function SyncTransaction(randomPart: string, now: string): (tx: Transaction)
    ensures tx.kind == Credit && tx.status == Completed
    ensures tx.currency == Currency && tx.amount == SyncAmount
    ensures SyncIdPrefix <= tx.id
  {
    Transaction(SyncIdPrefix + randomPart, SyncAmount, Currency, now,
                "Sincronización Segura (Vault Access)", Credit, Completed)
  }

  /** onUnlock, passed to the lock screen. */
  function Unlock(m: AppModel): (r: AppModel)
    ensures r.appState == Dashboard
    ensures r.(appState := m.appState) == m
  {
    m.(appState := Dashboard)
  }

  /** The "SINCRONIZAR BANCO" button, rendered on the dashboard only. */
  function OpenPlaidModal(m: AppModel): (r: AppModel)
    ensures r.appState == m.appState
    ensures r.showPlaidModal <==> m.showPlaidModal || m.appState != BiometricLock
    ensures r.(showPlaidModal := m.showPlaidModal) == m
  {
    if m.appState == BiometricLock then m else m.(showPlaidModal := true)
  }

  /** onCancel, passed to the modal. */
  function CancelPlaid(m: AppModel): (r: AppModel)
    ensures !r.showPlaidModal
    ensures r.(showPlaidModal := m.showPlaidModal) == m
  {
    m.(showPlaidModal := false)
  }

  /**
   * handlePlaidSuccess: the modal is closed first; then, only if encrypting
   * the access token and storing it both succeeded (`encrypted`), the toast
   * is shown, one sync transaction is prepended and the balance is credited.
   * `publicToken` is never read.
   */
  function HandlePlaidSuccess(m: AppModel, publicToken: string, encrypted: bool,
                              randomPart: string, now: string): (r: AppModel)
    ensures !r.showPlaidModal && r.appState == m.appState
    ensures encrypted ==>
              && |r.transactions| == |m.transactions| + 1
              && r.transactions[0] == SyncTransaction(randomPart, now)
              && r.transactions[1..] == m.transactions
              && r.wallet.balance == m.wallet.balance + SyncAmount
              && r.wallet.currency == m.wallet.currency
              && r.wallet.address == m.wallet.address
              && r.wallet.tier == m.wallet.tier
              && r.securityToast == Some(SecurityToastText)
              && r.toastTimers == m.toastTimers + 1
    ensures !encrypted ==>
              r.transactions == m.transactions && r.wallet == m.wallet
              && r.securityToast == m.securityToast && r.toastTimers == m.toastTimers
  {
    var closed := m.(showPlaidModal := false);
    if !encrypted then closed
    else closed.(securityToast := Some(SecurityToastText), toastTimers := m.toastTimers + 1,
                 transactions := [SyncTransaction(randomPart, now)] + m.transactions,
                 wallet := m.wallet.(balance := m.wallet.balance + SyncAmount))
  }

  /** The toast timer fires and hides the toast; with none pending nothing happens. */
  function ToastTimerFires(m: AppModel): (r: AppModel)
    ensures m.toastTimers > 0 ==> r.securityToast == None && r.toastTimers == m.toastTimers - 1
    ensures r.(securityToast := m.securityToast, toastTimers := m.toastTimers) == m
  {
    if m.toastTimers == 0 then m else m.(securityToast := None, toastTimers := m.toastTimers - 1)
  }

  datatype AppEvent =
    | UnlockEvent
    | OpenPlaidModalEvent
    | CancelPlaidEvent
    | PlaidSuccessEvent(publicToken: string, encrypted: bool, randomPart: string, now: string)
    | ToastTimerEvent

  function Step(m: AppModel, e: AppEvent): AppModel
  {
    match e
    case UnlockEvent => Unlock(m)
    case OpenPlaidModalEvent => OpenPlaidModal(m)
    case CancelPlaidEvent => CancelPlaid(m)
    case PlaidSuccessEvent(publicToken, encrypted, randomPart, now) =>
      HandlePlaidSuccess(m, publicToken, encrypted, randomPart, now)
    case ToastTimerEvent => ToastTimerFires(m)
  }

  function Run(m: AppModel, es: seq<AppEvent>): AppModel
    decreases |es|
  {
    if es == [] then m else Run(Step(m, es[0]), es[1..])
  }

  /**
   * The lock gate: the app is on the dashboard after a sequence of events
   * exactly when one of them was onUnlock, and is otherwise still in the
   * state it started in; no event leads back to the lock. While locked the
   * modal is never open, so only the lock screen is rendered.
   */
  lemma {:induction false} LockGate(m: AppModel, es: seq<AppEvent>)
    requires m.appState == BiometricLock ==> !m.showPlaidModal
    ensures Run(m, es).appState ==
              if exists i :: 0 <= i < |es| && es[i] == UnlockEvent then Dashboard else m.appState
    ensures Run(m, es).appState == BiometricLock ==> Render(Run(m, es)) == LockScreen
                                                     && !Run(m, es).showPlaidModal
    decreases |es|
  {
    if es != [] {
      LockGate(Step(m, es[0]), es[1..]);
      if es[0] == UnlockEvent {
        assert exists i :: 0 <= i < |es| && es[i] == UnlockEvent;
      } else {
        assert (exists i :: 0 <= i < |es| && es[i] == UnlockEvent)
           <==> (exists i :: 0 <= i < |es[1..]| && es[1..][i] == UnlockEvent) by {
          if exists i :: 0 <= i < |es| && es[i] == UnlockEvent {
            var i :| 0 <= i < |es| && es[i] == UnlockEvent;
            assert es[1..][i - 1] == UnlockEvent;
          }
          if exists i :: 0 <= i < |es[1..]| && es[1..][i] == UnlockEvent {
            var i :| 0 <= i < |es[1..]| && es[1..][i] == UnlockEvent;
            assert es[i + 1] == UnlockEvent;
          }
        }
      }
    }
  }

  /**
   * n successful syncs credit 450000 each and prepend n sync transactions,
   * newest first, in front of the untouched earlier list.
   */
  lemma {:induction false} RepeatedSyncs(m: AppModel, es: seq<AppEvent>)
    requires forall i :: 0 <= i < |es| ==> es[i].PlaidSuccessEvent? && es[i].encrypted
    ensures var r := Run(m, es);
      && r.wallet.balance == m.wallet.balance + SyncAmount * |es|
      && r.wallet.(balance := m.wallet.balance) == m.wallet
      && |r.transactions| == |m.transactions| + |es|
      && r.transactions[|es|..] == m.transactions
      && forall i :: 0 <= i < |es| ==>
           r.transactions[i] == SyncTransaction(es[|es| - 1 - i].randomPart, es[|es| - 1 - i].now)
    decreases |es|
  {
    if es != [] {
      var m1 := Step(m, es[0]);
      RepeatedSyncs(m1, es[1..]);
      var r := Run(m, es);
      assert r == Run(m1, es[1..]);
      var n := |es|;
      assert m1.transactions[1..] == m.transactions;
      assert r.transactions[n - 1..] == m1.transactions;
      assert r.transactions[n..] == m.transactions by {
        assert r.transactions[n..] == r.transactions[n - 1..][1..];
      }
      forall i | 0 <= i < n
        ensures r.transactions[i] == SyncTransaction(es[n - 1 - i].randomPart, es[n - 1 - i].now)
      {
        if i == n - 1 {
          assert r.transactions[i] == r.transactions[n - 1..][0] == m1.transactions[0];
        } else {
          assert es[1..][n - 2 - i] == es[n - 1 - i];
        }
      }
    }
  }

  /** From the initial state, n successful syncs leave 1000000 + 450000·n and 2 + n entries. */
  lemma SyncsFromStart(now: string, yesterday: string, es: seq<AppEvent>)
    requires forall i :: 0 <= i < |es| ==> es[i].PlaidSuccessEvent? && es[i].encrypted
    ensures Run(InitialApp(now, yesterday), es).wallet.balance == 1000000 + 450000 * |es|
    ensures |Run(InitialApp(now, yesterday), es).transactions| == 2 + |es|
  {
    RepeatedSyncs(InitialApp(now, yesterday), es);
  }

  /** A failed encryption or storage changes nothing but closing the modal. */
  lemma FailedSyncOnlyCloses(m: AppModel, publicToken: string, randomPart: string, now: string)
    ensures HandlePlaidSuccess(m, publicToken, false, randomPart, now) == m.(showPlaidModal := false)
  {
  }

  /** The outcome of a sync is the same whatever public token arrives. */
  lemma SyncIgnoresPublicToken(m: AppModel, t1: string, t2: string, encrypted: bool,
                               randomPart: string, now: string)
    ensures HandlePlaidSuccess(m, t1, encrypted, randomPart, now)
         == HandlePlaidSuccess(m, t2, encrypted, randomPart, now)
  {
  }

  /** The component's state; each handler is one event of Step. */
  class App {
    var appState: AppState
    var wallet: UserWallet
    var transactions: seq<Transaction>
    var showPlaidModal: bool
    var securityToast: Option<string>
    var toastTimers: nat

    function Model(): AppModel
      reads this
    {
      AppModel(appState, wallet, transactions, showPlaidModal, securityToast, toastTimers)
    }

    constructor (now: string, yesterday: string)
      ensures Model() == InitialApp(now, yesterday)
    {
      appState := BiometricLock;
      wallet := InitialWallet;
      transactions := InitialTransactions(now, yesterday);
      showPlaidModal := false;
      securityToast := None;
      toastTimers := 0;
    }

    method OnUnlock()
      modifies this
      ensures Model() == Step(old(Model()), UnlockEvent)
    {
      appState := Dashboard;
    }

    method OpenPlaidModal()
      modifies this
      ensures Model() == Step(old(Model()), OpenPlaidModalEvent)
    {
      if appState != BiometricLock {
        showPlaidModal := true;
      }
    }

    method CancelPlaid()
      modifies this
      ensures Model() == Step(old(Model()), CancelPlaidEvent)
    {
      showPlaidModal := false;
    }

    method HandlePlaidSuccess(publicToken: string, encrypted: bool, randomPart: string, now: string)
      modifies this
      ensures Model() == Step(old(Model()), PlaidSuccessEvent(publicToken, encrypted, randomPart, now))
    {
      showPlaidModal := false;
      if encrypted {
        securityToast := Some(SecurityToastText);
        toastTimers := toastTimers + 1;
        var newTx := SyncTransaction(randomPart, now);
        transactions := [newTx] + transactions;
        wallet := wallet.(balance := wallet.balance + SyncAmount);
      }
    }

    method ToastTimerFires()
      modifies this
      ensures Model() == Step(old(Model()), ToastTimerEvent)
    {
      if toastTimers > 0 {
        securityToast := None;
        toastTimers := toastTimers - 1;
      }
    }
  }
}
