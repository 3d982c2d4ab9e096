/** The error codes the VM reports; one constructor per txscript code used. */
module ScriptErrors {
  datatype ErrorCode =
    | NumberTooBig
    | MinimalData
    | DivisionByZero
    | ModuloByZero
    | NegativeFixedSize
    | InvalidStackOperation
    | InvalidIndex
    | VerifyFailed
    | EqualVerify
    | NumEqualVerify
    | EarlyReturn
    | ReservedOpcode
    | ElementTooBig
    | StackOverflow
    | UnbalancedConditional
    | MinimalIf
    | NullFail
    | CleanStack
    | EmptyStack
    | EvalFalse
    | ScriptUnfinished
    | InvalidProgramCounter
    | MalformedPush
    | UnsupportedScriptVersion
    | ScriptTooBig
    | InvalidSigHashType
    | DiscourageUpgradableNOPs
    | NegativeLockTime
    | UnsatisfiedLockTime
    | PubKeyRejected
    | SighashFailed
    | NotPushOnly
    | OtherOpcode
}
