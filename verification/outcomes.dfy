/** The per-case behaviour of the collaborators the platform-test harness
    calls (pool provisioning, the case body, pool teardown), and the errors
    the harness turns a failing case into. The collaborators themselves are
    not modelled: each case supplies their outcomes as plain values. */
module Outcomes {

  datatype Option<+T> = None | Some(value: T)

  /** Result of validating the command-line pool arguments before any case runs. */
  datatype Validation = Valid | Invalid(reason: string)

  /** Result of create-or-replace of the test pool for one case. */
  datatype Provision = Created | CreateFailed(cause: string)

  /** How a case body ends: it returns normally, or it panics with a value
      (the value as the `%v` verb renders it). */
  datatype Body = Returns | Panics(value: string)

  /** Result of destroying the test pool after a case. */
  datatype Destroy = DestroyOk | DestroyFailed(cause: string)

  /** One registered test case, described by what its collaborators do. */
  datatype CaseBehaviour = CaseBehaviour(provision: Provision, body: Body, destroy: Destroy)

  /** A case fails when its pool cannot be created or its body panics.
      What pool teardown does never enters into it. */
  predicate Fails(c: CaseBehaviour) {
    c.provision.CreateFailed? || c.body.Panics?
  }

  /** The error the per-case closure returns. */
  datatype CaseError =
    | CreatePool(cause: string)
    | PanicWhileRunning(value: string)

  const CreatePoolPrefix: string := "create test pool: "
  const PanicPrefix: string := "panic while running test: "

  /** Reads the kind and the detail back from an error text. */
  function ParseMessage(m: string): Option<CaseError> {
    if CreatePoolPrefix <= m then Some(CreatePool(m[|CreatePoolPrefix|..]))
    else if PanicPrefix <= m then Some(PanicWhileRunning(m[|PanicPrefix|..]))
    else None
  }

  /** The error's text: provisioning errors are wrapped with "create test
      pool", recovered panics are formatted as "panic while running test:
      <value>". The text tells a provisioning failure from a contained
      panic, and keeps the cause or the panic value intact. */
  function Message(e: CaseError): (m: string)
    ensures ParseMessage(m) == Some(e)
  {
    match e
    case CreatePool(cause) =>
      var m := CreatePoolPrefix + cause;
      assert m[|CreatePoolPrefix|..] == cause;
      m
    case PanicWhileRunning(value) =>
      var m := PanicPrefix + value;
      assert m[0] == 'p' != CreatePoolPrefix[0];
      assert m[|PanicPrefix|..] == value;
      m
  }
}
