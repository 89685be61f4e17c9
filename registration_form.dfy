/**
 * The registration form: a year counter clamped to 1..10, the wallet address
 * field, and the two-phase submission (USDC approval, then registration),
 * which walks the form through the steps form → approve → register → success
 * and falls back to the form on any failure.
 *
 * The two contract calls are parameters: each is the outcome the wallet and
 * the chain produce. A submission records, in order, every state change and
 * every outward action it performs as an `Effect`; `SubmitTrace` is the
 * specification of that trace and `Replay` explains the form's new state by it.
 */
module RegistrationForm {
  import opened JsString
  import Web3

  // ---------------------------------------------------------------------------
  // Years and fee
  // ---------------------------------------------------------------------------

  /** The form's own cap on the registration period (the protocol allows more). */
  const MaxFormYears: int := 10

  /** `handleYearsChange`: `Math.max(1, Math.min(10, newYears))`. */
  function ClampYears(newYears: int): (years: int)
    ensures 1 <= years <= MaxFormYears
    ensures 1 <= newYears <= MaxFormYears ==> years == newYears
    ensures newYears < 1 ==> years == 1
    ensures newYears > MaxFormYears ==> years == MaxFormYears
  {
    var capped := if newYears < MaxFormYears then newYears else MaxFormYears;
    if capped < 1 then 1 else capped
  }

  /** Clamping twice is clamping once, and the form's range lies within the protocol's. */
  lemma ClampYearsIdempotent(newYears: int)
    ensures ClampYears(ClampYears(newYears)) == ClampYears(newYears)
    ensures Web3.MinYears <= ClampYears(newYears) <= Web3.MaxYears
  {
  }

  /** `totalFee = baseFee * BigInt(watchedYears)` */
  function TotalFee(baseFee: int, years: int): (total: int)
    ensures years == 1 ==> total == baseFee
    ensures 0 <= baseFee && 1 <= years ==> baseFee <= total
  {
    baseFee * years
  }

  /** With the one-year fee of a name as the base, the form's total is the fee schedule's total, at most 10000 USDC. */
  lemma TotalFeeMatchesSchedule(name: string, years: int)
    requires 1 <= years <= MaxFormYears
    ensures TotalFee(Web3.CalculateRegistrationFee(name, 1), years) == Web3.CalculateRegistrationFee(name, years)
    ensures TotalFee(Web3.CalculateRegistrationFee(name, 1), years) <= 10_000 * Web3.Usdc
  {
    var f := Web3.FeePerYear(|name|);
    assert f <= 1000 * Web3.Usdc;
    assert f * years <= 1000 * Web3.Usdc * years;
  }

  /** The form schema: a wallet address of the expected shape and 1..10 years. */
  predicate SchemaAccepts(walletAddress: string, years: int): (accepted: bool)
    ensures accepted ==> |walletAddress| == 42 && Web3.MinYears <= years <= Web3.MaxYears
  {
    Web3.IsValidAddress(walletAddress) && 1 <= years <= MaxFormYears
  }

  // ---------------------------------------------------------------------------
  // Contract call outcomes
  // ---------------------------------------------------------------------------

  datatype Step = Form | Approve | Register | Success

  /** What `await result.wait?.()` does: no `wait` at all, a confirmation, or a rejection with a message. */
  datatype Confirmation = NoWait | Confirmed | Reverted(reason: string)

  /**
   * What a contract call gives back: it throws, or it returns a result whose
   * `error` and `hash` are "" when absent.
   */
  datatype CallOutcome =
    | Threw(message: string)
    | Returned(success: bool, error: string, hash: string, wait: Confirmation)

  /** The phase goes on to the next one: the call succeeded and its confirmation, if any, was not rejected. */
  predicate Passes(outcome: CallOutcome) {
    outcome.Returned? && outcome.success && !outcome.wait.Reverted?
  }

  /** The message of the error a failing phase ends with; `fallback` replaces a missing `error`. */
  function PhaseError(outcome: CallOutcome, fallback: string): string
    requires !Passes(outcome)
  {
    match outcome
    case Threw(message) => message
    case Returned(success, error, _, wait) =>
      if !success then (if error == "" then fallback else error) else wait.reason
  }

  /** `error.message || 'Registration failed'` */
  function ToastText(message: string): (text: string)
    ensures text != ""
    ensures message != "" ==> text == message
    ensures message == "" ==> text == "Registration failed"
  {
    if message == "" then "Registration failed" else message
  }

  /** A failed phase names its cause, or the phase's fallback text when the call gave none. */
  lemma PhaseErrorNamesCause(outcome: CallOutcome, fallback: string)
    requires !Passes(outcome)
    ensures outcome.Returned? && !outcome.success && outcome.error != "" ==> PhaseError(outcome, fallback) == outcome.error
    ensures outcome.Returned? && !outcome.success && outcome.error == "" ==> PhaseError(outcome, fallback) == fallback
    ensures outcome.Returned? && outcome.success ==> outcome.wait.Reverted? && PhaseError(outcome, fallback) == outcome.wait.reason
  {
  }

  // ---------------------------------------------------------------------------
  // Effects and the form's state
  // ---------------------------------------------------------------------------

  /** What one submission sends to the registry. */
  datatype Request = Request(name: string, tld: string, walletAddress: string, years: int, amount: int)

  datatype Effect =
    | Busy(on: bool)                 // setIsRegistering
    | EnterStep(step: Step)          // setRegistrationStep
    | ShowTx(hash: string)           // setTxHash
    | ApproveCall(amount: int)       // contract.approveUSDC
    | RegisterCall(name: string, tld: string, walletAddress: string, years: int)  // contract.registerDomain
    | Alert(message: string)         // toast.error
    | Succeeded                      // onSuccess

  /** The part of the form's state that a submission changes. */
  datatype View = View(step: Step, isRegistering: bool, txHash: string)

  function Apply(v: View, e: Effect): View {
    match e
    case Busy(on) => v.(isRegistering := on)
    case EnterStep(step) => v.(step := step)
    case ShowTx(hash) => v.(txHash := hash)
    case _ => v
  }

  /** The state after performing `effects` in order from `v`. */
  function Replay(v: View, effects: seq<Effect>): View {
    if effects == [] then v else Apply(Replay(v, effects[..|effects| - 1]), effects[|effects| - 1])
  }

  lemma {:induction false} ReplayAppend(v: View, a: seq<Effect>, b: seq<Effect>)
    ensures Replay(v, a + b) == Replay(Replay(v, a), b)
    decreases |b|
  {
    if b != [] {
      assert (a + b)[..|a + b| - 1] == a + b[..|b| - 1];
      ReplayAppend(v, a, b[..|b| - 1]);
    } else {
      assert a + b == a;
    }
  }

  /** The steps entered, in order. */
  function Steps(effects: seq<Effect>): seq<Step> {
    if effects == [] then []
    else (if effects[0].EnterStep? then [effects[0].step] else []) + Steps(effects[1..])
  }

  /** The contract calls made, in order. */
  function Calls(effects: seq<Effect>): seq<Effect> {
    if effects == [] then []
    else (if effects[0].ApproveCall? || effects[0].RegisterCall? then [effects[0]] else []) + Calls(effects[1..])
  }

  /** The error messages shown, in order. */
  function Alerts(effects: seq<Effect>): seq<string> {
    if effects == [] then []
    else (if effects[0].Alert? then [effects[0].message] else []) + Alerts(effects[1..])
  }

  lemma {:induction false} SelectionsAppend(a: seq<Effect>, b: seq<Effect>)
    ensures Steps(a + b) == Steps(a) + Steps(b)
    ensures Calls(a + b) == Calls(a) + Calls(b)
    ensures Alerts(a + b) == Alerts(a) + Alerts(b)
    ensures Succeeded in a + b <==> Succeeded in a || Succeeded in b
  {
    if a != [] {
      assert (a + b)[0] == a[0];
      assert (a + b)[1..] == a[1..] + b;
      SelectionsAppend(a[1..], b);
    } else {
      assert a + b == b;
    }
  }

  // ---------------------------------------------------------------------------
  // The submission, specified
  // ---------------------------------------------------------------------------

  /** Leaving a phase through the `catch` block. */
  function Fail(message: string): seq<Effect> {
    [Alert(ToastText(message)), EnterStep(Form)]
  }

  /** The start of every submission of an available name. */
  function Opening(amount: int): seq<Effect> {
    [Busy(true), EnterStep(Approve), ApproveCall(amount)]
  }

  /** What follows the registration call. */
  function AfterRegisterCall(register: CallOutcome): seq<Effect> {
    if !(register.Returned? && register.success) then Fail(PhaseError(register, "Failed to register domain"))
    else if register.wait.Reverted? then [ShowTx(register.hash)] + Fail(register.wait.reason)
    else [ShowTx(register.hash), EnterStep(Success), Succeeded]
  }

  /** What follows the approval call. */
  function AfterApproveCall(request: Request, approve: CallOutcome, register: CallOutcome): seq<Effect> {
    if !Passes(approve) then Fail(PhaseError(approve, "Failed to approve USDC"))
    else [EnterStep(Register), RegisterCall(request.name, request.tld, request.walletAddress, request.years)] +
         AfterRegisterCall(register)
  }

  /** Everything `onSubmit` does, in order, given the two calls' outcomes. */
  function SubmitTrace(isAvailable: bool, request: Request, approve: CallOutcome, register: CallOutcome): (trace: seq<Effect>)
    ensures isAvailable ==> 4 <= |trace| && trace[0] == Busy(true) && trace[|trace| - 1] == Busy(false)
    ensures !isAvailable ==> Busy(true) !in trace
  {
    if !isAvailable then [Alert("Domain is not available")]
    else Opening(request.amount) + AfterApproveCall(request, approve, register) + [Busy(false)]
  }

  /** The selections of a one-effect trace. */
  lemma SelectionsOfSingleton(e: Effect)
    ensures Steps([e]) == (if e.EnterStep? then [e.step] else [])
    ensures Calls([e]) == (if e.ApproveCall? || e.RegisterCall? then [e] else [])
    ensures Alerts([e]) == (if e.Alert? then [e.message] else [])
  {
    assert [e][1..] == [];
  }

  /** The selections of a two-effect trace, read off one effect at a time. */
  lemma SelectionsOfPair(e: Effect, f: Effect)
    ensures Steps([e, f]) == Steps([e]) + Steps([f])
    ensures Calls([e, f]) == Calls([e]) + Calls([f])
    ensures Alerts([e, f]) == Alerts([e]) + Alerts([f])
  {
    assert [e, f] == [e] + [f];
    SelectionsAppend([e], [f]);
  }

  lemma FailSelections(message: string)
    ensures Steps(Fail(message)) == [Form] && Calls(Fail(message)) == [] && Alerts(Fail(message)) == [ToastText(message)]
    ensures Succeeded !in Fail(message)
  {
    SelectionsOfPair(Alert(ToastText(message)), EnterStep(Form));
    SelectionsOfSingleton(Alert(ToastText(message)));
    SelectionsOfSingleton(EnterStep(Form));
  }

  lemma OpeningSelections(amount: int)
    ensures Steps(Opening(amount)) == [Approve]
    ensures Calls(Opening(amount)) == [ApproveCall(amount)]
    ensures Alerts(Opening(amount)) == []
    ensures Succeeded !in Opening(amount)
  {
    var head := [Busy(true), EnterStep(Approve)];
    assert Opening(amount) == head + [ApproveCall(amount)];
    SelectionsAppend(head, [ApproveCall(amount)]);
    SelectionsOfPair(Busy(true), EnterStep(Approve));
    SelectionsOfSingleton(Busy(true));
    SelectionsOfSingleton(EnterStep(Approve));
    SelectionsOfSingleton(ApproveCall(amount));
  }

  /** What follows a registration call that returned success and was confirmed. */
  lemma ConfirmedSelections(hash: string)
    ensures var t := [ShowTx(hash), EnterStep(Success), Succeeded];
            Steps(t) == [Success] && Calls(t) == [] && Alerts(t) == [] && Succeeded in t
  {
    var t := [ShowTx(hash), EnterStep(Success), Succeeded];
    assert t == [ShowTx(hash)] + [EnterStep(Success), Succeeded];
    SelectionsAppend([ShowTx(hash)], [EnterStep(Success), Succeeded]);
    SelectionsOfPair(EnterStep(Success), Succeeded);
    SelectionsOfSingleton(ShowTx(hash));
    SelectionsOfSingleton(EnterStep(Success));
    SelectionsOfSingleton(Succeeded);
  }

  lemma AfterRegisterCallSelections(register: CallOutcome)
    ensures var t := AfterRegisterCall(register);
            && Steps(t) == (if Passes(register) then [Success] else [Form])
            && Calls(t) == []
            && Alerts(t) == (if Passes(register) then [] else [ToastText(PhaseError(register, "Failed to register domain"))])
            && (Succeeded in t <==> Passes(register))
  {
    if !(register.Returned? && register.success) {
      FailSelections(PhaseError(register, "Failed to register domain"));
    } else if register.wait.Reverted? {
      var m := register.wait.reason;
      FailSelections(m);
      SelectionsAppend([ShowTx(register.hash)], Fail(m));
      SelectionsOfSingleton(ShowTx(register.hash));
    } else {
      ConfirmedSelections(register.hash);
    }
  }

  /** What follows a passed approval: the register step, the registration call, then whatever comes after it. */
  lemma RegisterPhaseSelections(call: Effect, rest: seq<Effect>)
    requires call.RegisterCall?
    ensures var t := [EnterStep(Register), call] + rest;
            && Steps(t) == [Register] + Steps(rest)
            && Calls(t) == [call] + Calls(rest)
            && Alerts(t) == Alerts(rest)
            && (Succeeded in t <==> Succeeded in rest)
  {
    SelectionsAppend([EnterStep(Register), call], rest);
    SelectionsOfPair(EnterStep(Register), call);
    SelectionsOfSingleton(EnterStep(Register));
    SelectionsOfSingleton(call);
  }

  lemma AfterApproveCallSelections(request: Request, approve: CallOutcome, register: CallOutcome)
    ensures var t := AfterApproveCall(request, approve, register);
            && Steps(t) == (if !Passes(approve) then [Form] else if !Passes(register) then [Register, Form] else [Register, Success])
            && Calls(t) == (if Passes(approve) then [RegisterCall(request.name, request.tld, request.walletAddress, request.years)] else [])
            && Alerts(t) == (if !Passes(approve) then [ToastText(PhaseError(approve, "Failed to approve USDC"))]
                             else if !Passes(register) then [ToastText(PhaseError(register, "Failed to register domain"))]
                             else [])
            && (Succeeded in t <==> Passes(approve) && Passes(register))
  {
    var t := AfterApproveCall(request, approve, register);
    if !Passes(approve) {
      var m := PhaseError(approve, "Failed to approve USDC");
      assert t == Fail(m);
      FailSelections(m);
    } else {
      var call := RegisterCall(request.name, request.tld, request.walletAddress, request.years);
      assert t == [EnterStep(Register), call] + AfterRegisterCall(register);
      RegisterPhaseSelections(call, AfterRegisterCall(register));
      AfterRegisterCallSelections(register);
    }
  }

  /** The selections of a whole submission of an available name, around whatever follows the approval call. */
  lemma TraceSelections(amount: int, middle: seq<Effect>)
    ensures var t := Opening(amount) + middle + [Busy(false)];
            && Steps(t) == [Approve] + Steps(middle)
            && Calls(t) == [ApproveCall(amount)] + Calls(middle)
            && Alerts(t) == Alerts(middle)
            && (Succeeded in t <==> Succeeded in middle)
  {
    var opening := Opening(amount);
    var tail := middle + [Busy(false)];
    assert opening + middle + [Busy(false)] == opening + tail;
    SelectionsAppend(opening, tail);
    SelectionsAppend(middle, [Busy(false)]);
    OpeningSelections(amount);
    SelectionsOfSingleton(Busy(false));
  }

  /** An unavailable name is refused with a message: no call, no state change. */
  lemma UnavailableRefused(v: View, request: Request, approve: CallOutcome, register: CallOutcome)
    ensures var t := SubmitTrace(false, request, approve, register);
            Calls(t) == [] && Alerts(t) == ["Domain is not available"] && Replay(v, t) == v
  {
    var t := SubmitTrace(false, request, approve, register);
    assert t[1..] == [];
    assert t[..0] == [];
  }

  /**
   * The calls made: always the approval of the total fee first; the
   * registration, with the form's values, only after the approval passed;
   * never a retry.
   */
  lemma CallsMade(request: Request, approve: CallOutcome, register: CallOutcome)
    ensures Calls(SubmitTrace(true, request, approve, register)) ==
              if Passes(approve)
              then [ApproveCall(request.amount), RegisterCall(request.name, request.tld, request.walletAddress, request.years)]
              else [ApproveCall(request.amount)]
  {
    TraceSelections(request.amount, AfterApproveCall(request, approve, register));
    AfterApproveCallSelections(request, approve, register);
  }

  /**
   * The steps shown: approve, then register once the approval passed, and
   * success only when both phases passed; otherwise back to the form.
   */
  lemma StepsTaken(request: Request, approve: CallOutcome, register: CallOutcome)
    ensures Steps(SubmitTrace(true, request, approve, register)) ==
              if !Passes(approve) then [Approve, Form]
              else if !Passes(register) then [Approve, Register, Form]
              else [Approve, Register, Success]
  {
    TraceSelections(request.amount, AfterApproveCall(request, approve, register));
    AfterApproveCallSelections(request, approve, register);
  }

  /** A failure is reported exactly once with its cause, and success is announced exactly when both phases pass. */
  lemma OutcomeReported(request: Request, approve: CallOutcome, register: CallOutcome)
    ensures var t := SubmitTrace(true, request, approve, register);
            && (Succeeded in t <==> Passes(approve) && Passes(register))
            && (Passes(approve) && Passes(register) ==> Alerts(t) == [])
            && (!Passes(approve) ==> Alerts(t) == [ToastText(PhaseError(approve, "Failed to approve USDC"))])
            && (Passes(approve) && !Passes(register) ==> Alerts(t) == [ToastText(PhaseError(register, "Failed to register domain"))])
  {
    TraceSelections(request.amount, AfterApproveCall(request, approve, register));
    AfterApproveCallSelections(request, approve, register);
  }

  /** The only registration a submission can request is for the form's own year count. */
  lemma RegisteredYears(isAvailable: bool, request: Request, approve: CallOutcome, register: CallOutcome)
    ensures forall e :: e in Calls(SubmitTrace(isAvailable, request, approve, register)) && e.RegisterCall? ==>
              e.years == request.years
  {
    if isAvailable {
      CallsMade(request, approve, register);
    } else {
      UnavailableRefused(View(Form, false, ""), request, approve, register);
    }
  }

  lemma ReplaySingleton(v: View, e: Effect)
    ensures Replay(v, [e]) == Apply(v, e)
  {
    assert [e][..0] == [];
  }

  lemma ReplayPair(v: View, e: Effect, f: Effect)
    ensures Replay(v, [e, f]) == Apply(Apply(v, e), f)
  {
    assert [e, f][..1] == [e];
    ReplaySingleton(v, e);
  }

  lemma AfterRegisterCallReplay(v: View, register: CallOutcome)
    ensures var after := Replay(v, AfterRegisterCall(register));
            && after.isRegistering == v.isRegistering
            && after.step == (if Passes(register) then Success else Form)
            && after.txHash == (if register.Returned? && register.success then register.hash else v.txHash)
  {
    if !(register.Returned? && register.success) {
      ReplayPair(v, Alert(ToastText(PhaseError(register, "Failed to register domain"))), EnterStep(Form));
    } else {
      var shown := Apply(v, ShowTx(register.hash));
      ReplaySingleton(v, ShowTx(register.hash));
      if register.wait.Reverted? {
        ReplayAppend(v, [ShowTx(register.hash)], Fail(register.wait.reason));
        ReplayPair(shown, Alert(ToastText(register.wait.reason)), EnterStep(Form));
      } else {
        assert AfterRegisterCall(register) == [ShowTx(register.hash)] + [EnterStep(Success), Succeeded];
        ReplayAppend(v, [ShowTx(register.hash)], [EnterStep(Success), Succeeded]);
        ReplayPair(shown, EnterStep(Success), Succeeded);
      }
    }
  }

  lemma AfterApproveCallReplay(v: View, request: Request, approve: CallOutcome, register: CallOutcome)
    ensures var after := Replay(v, AfterApproveCall(request, approve, register));
            && after.isRegistering == v.isRegistering
            && after.step == (if Passes(approve) && Passes(register) then Success else Form)
            && after.txHash == (if Passes(approve) && register.Returned? && register.success then register.hash else v.txHash)
  {
    if !Passes(approve) {
      ReplayPair(v, Alert(ToastText(PhaseError(approve, "Failed to approve USDC"))), EnterStep(Form));
    } else {
      var call := RegisterCall(request.name, request.tld, request.walletAddress, request.years);
      ReplayAppend(v, [EnterStep(Register), call], AfterRegisterCall(register));
      ReplayPair(v, EnterStep(Register), call);
      AfterRegisterCallReplay(Replay(v, [EnterStep(Register), call]), register);
    }
  }

  /**
   * The state a submission of an available name leaves: never busy; on the
   * success step exactly when both phases passed, else on the form; and
   * showing the registration's hash exactly when the registration call
   * itself succeeded, even if its confirmation then failed.
   */
  lemma SubmitFinalView(v: View, request: Request, approve: CallOutcome, register: CallOutcome)
    ensures var after := Replay(v, SubmitTrace(true, request, approve, register));
            && !after.isRegistering
            && after.step == (if Passes(approve) && Passes(register) then Success else Form)
            && after.txHash == (if Passes(approve) && register.Returned? && register.success then register.hash else v.txHash)
  {
    var opening := Opening(request.amount);
    var middle := AfterApproveCall(request, approve, register);
    ReplayAppend(v, opening + middle, [Busy(false)]);
    ReplayAppend(v, opening, middle);
    assert opening == [Busy(true)] + [EnterStep(Approve), ApproveCall(request.amount)];
    ReplayAppend(v, [Busy(true)], [EnterStep(Approve), ApproveCall(request.amount)]);
    ReplaySingleton(v, Busy(true));
    ReplayPair(Apply(v, Busy(true)), EnterStep(Approve), ApproveCall(request.amount));
    AfterApproveCallReplay(Replay(v, opening), request, approve, register);
    ReplaySingleton(Replay(v, opening + middle), Busy(false));
  }

  // ---------------------------------------------------------------------------
  // The form component
  // ---------------------------------------------------------------------------

  class RegistrationForm {
    const name: string
    const tld: string
    const isAvailable: bool
    /** The one-year fee, in USDC base units. */
    const baseFee: int

    var step: Step
    var isRegistering: bool
    var txHash: string
    /** The year counter, mirrored into the form's `years` field. */
    var years: int
    /** The form's `walletAddress` field. */
    var walletAddress: string

    ghost predicate Valid()
      reads this
    {
      1 <= years <= MaxFormYears
    }

    function CurrentView(): View
      reads this
    {
      View(step, isRegistering, txHash)
    }

    /** The request a submission now would send. */
    function CurrentRequest(): Request
      reads this
    {
      Request(name, tld, walletAddress, years, TotalFee(baseFee, years))
    }

    /** The form, rather than the "not available" or the success panel, is on screen. */
    predicate FormShown()
      reads this
    {
      isAvailable && step != Success
    }

    /** The submit button is rendered and enabled, and the schema accepts the fields. */
    predicate CanSubmit(isConnected: bool)
      reads this
    {
      FormShown() && isConnected && SchemaAccepts(walletAddress, years) && !isRegistering
    }

    /** The form as first rendered, with the connected wallet's address, or "", in the address field. */
    constructor(name: string, tld: string, isAvailable: bool, baseFee: int, connectedAddress: string)
      ensures Valid()
      ensures this.name == name && this.tld == tld && this.isAvailable == isAvailable && this.baseFee == baseFee
      ensures step == Form && !isRegistering && txHash == "" && years == 1
      ensures walletAddress == connectedAddress
    {
      this.name := name;
      this.tld := tld;
      this.isAvailable := isAvailable;
      this.baseFee := baseFee;
      step := Form;
      isRegistering := false;
      txHash := "";
      years := 1;
      walletAddress := connectedAddress;
    }

    /** The effect run when the wallet's address changes: a connected address replaces the field. */
    method OnAddressChange(address: string)
      modifies this
      ensures walletAddress == if address != "" then address else old(walletAddress)
      ensures CurrentView() == old(CurrentView()) && years == old(years)
    {
      if address != "" {
        walletAddress := address;
      }
    }

    /** Typing in the address field. */
    method EditWalletAddress(text: string)
      modifies this
      ensures walletAddress == text
      ensures CurrentView() == old(CurrentView()) && years == old(years)
    {
      walletAddress := text;
    }

    /** `handleYearsChange`, from the minus, plus and quick-pick buttons alike. */
    method HandleYearsChange(newYears: int)
      modifies this
      ensures Valid()
      ensures years == ClampYears(newYears)
      ensures CurrentView() == old(CurrentView()) && walletAddress == old(walletAddress)
    {
      years := if newYears < MaxFormYears then newYears else MaxFormYears;
      if years < 1 {
        years := 1;
      }
    }

    /**
     * `onSubmit`: refuses an unavailable name; otherwise approves the total
     * fee, waits for the approval, registers with the form's values, waits
     * for the registration, and reports success; the first failure is shown
     * and sends the form back to its first step.
     */
    method OnSubmit(approve: CallOutcome, register: CallOutcome) returns (effects: seq<Effect>)
      requires Valid()
      modifies this
      ensures Valid() && years == old(years) && walletAddress == old(walletAddress)
      ensures effects == SubmitTrace(isAvailable, old(CurrentRequest()), approve, register)
      ensures CurrentView() == Replay(old(CurrentView()), effects)
      ensures forall e :: e in Calls(effects) && e.RegisterCall? ==> 1 <= e.years <= MaxFormYears
    {
      ghost var start := CurrentView();
      var request := CurrentRequest();
      RegisteredYears(isAvailable, request, approve, register);
      if !isAvailable {
        effects := [Alert("Domain is not available")];
        UnavailableRefused(start, request, approve, register);
        return;
      }
      isRegistering := true;
      step := Approve;
      effects := Opening(request.amount);
      var thrown: Option<string> := None;
      var rest: seq<Effect>;
      if !Passes(approve) {
        thrown := Some(PhaseError(approve, "Failed to approve USDC"));
        rest := [];
      } else {
        step := Register;
        rest := [EnterStep(Register), RegisterCall(name, tld, walletAddress, years)];
        if !(register.Returned? && register.success) {
          thrown := Some(PhaseError(register, "Failed to register domain"));
        } else {
          txHash := register.hash;
          rest := rest + [ShowTx(register.hash)];
          if register.wait.Reverted? {
            thrown := Some(register.wait.reason);
          } else {
            step := Success;
            rest := rest + [EnterStep(Success), Succeeded];
          }
        }
      }
      if thrown.Some? {
        step := Form;
        rest := rest + Fail(thrown.value);
      }
      assert rest == AfterApproveCall(request, approve, register);
      isRegistering := false;
      effects := effects + rest + [Busy(false)];
      SubmitFinalView(start, request, approve, register);
    }

    /**
     * A press of the submit button: nothing happens unless the form is on
     * screen, the wallet is connected, the fields pass the schema and no
     * submission is running; then it is `onSubmit`.
     */
    method HandleSubmit(isConnected: bool, approve: CallOutcome, register: CallOutcome) returns (effects: seq<Effect>)
      requires Valid()
      modifies this
      ensures Valid() && years == old(years) && walletAddress == old(walletAddress)
      ensures !old(CanSubmit(isConnected)) ==> effects == [] && CurrentView() == old(CurrentView())
      ensures old(CanSubmit(isConnected)) ==>
                effects == SubmitTrace(true, old(CurrentRequest()), approve, register)
                && CurrentView() == Replay(old(CurrentView()), effects)
      ensures forall e :: e in Calls(effects) && e.RegisterCall? ==> 1 <= e.years <= MaxFormYears
    {
      if !CanSubmit(isConnected) {
        return [];
      }
      effects := OnSubmit(approve, register);
    }
  }
}
