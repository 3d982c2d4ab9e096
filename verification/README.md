# Arkade emulator: a verified model

This project models three linked parts of the Arkade emulator in Dafny and proves what they promise.

**The script machine** (`ScriptVM`, `Engine`, and the modules they rest on). A stack machine over byte strings: a
tokenizer, a flat conditional stack, in-place stack operations, a number type with an int64 fast path and an
arbitrary-precision slow path, and execution budgets per input and per request. `ScriptVM` says what every opcode,
token and script means; the classes `Stack`, `ScriptTokenizer`, `ComputeBudget` and `Engine` follow the source's
imperative form and are proved to compute that meaning. What the opcodes mean is stated once more without it, as laws
over operands and results (`NumberLaws`, `StackLaws`, `InspectLaws`, `AssetLaws`). The conditional stack is proved to
refine nested branches, and stack limits, element sizes and budgets are proved for all runs.

**The vault policy** (`VaultScript` to `VaultRun`). The authorization script is built token by token in the source's
order. `VaultProof.AcceptsExactlyPolicy` proves that the machine accepts it exactly when the transaction meets the
stated policy and the starting stack is one valid signature. `VaultEnvelope` proves that the loop that lets the script
embed its own packet envelope always converges and what it converges to. `VaultRun` carries this to the engine and to
the message the signature covers, which does not change when the signature is put into the packet. `Classify` is the
second implementation of the policy; `VaultFacts` and `ClassifyFacts` spell both out field by field. `VaultSpend`
proves that whatever it accepts the script accepts, and `ClassifierIsExact` exactly when it refuses nothing more.

**Issuance and staged signing** (`Issuance` to `Authorize`). The ledger is a table of rows; each database transaction
is one step of a state machine, signers answer anything, the database may roll back or lose a reply, and a crash may
come between any two steps. `IssuanceProgress` proves that a clean call brings every bound request to its end, from
every state a crash can leave. Over all runs: the allowance, one charge per key, the order of signer calls, replays,
and that a completed packet is the submitted one with exactly two verified signatures added and nothing else changed.
The class `Ledger` is proved to be runs of that machine.

Around them: the emulator packet in Go and in the browser (`EmulatorPacket`, `WebCodec`, `WebMask`, their bytes in
`FormatLaws`), the signature message, its masking and what it commits to (`SigMessage`, `SigCommit`), asset
introspection (`Assets`) and checkpoints (`Checkpoints`).

Conventions. Hashes, point checks, signature checks, transaction ids, the clock, the database outcome and remote
signers are parameters, so every statement holds for all of them; the one use of collision freedom, for the two
strings at hand, is the hypothesis `CollisionFree`. Byte strings are sequences of a byte type, amounts are integers
with the int64 range written out where it matters. `hide` statements only limit what a proof looks at.

Where code and comments differ, the model follows the code. The classifier is documented to apply the policy's feerate
ceiling, but it multiplies feerate and size in int64. `Classify.ClassifierIsExact` gives the exact condition under
which this changes nothing, and `VaultSpend.WrappingRefuses` a valid policy and a spend where the script's policy
holds and the classifier refuses.

The packet library is assumed to lose nothing when it writes a packet it has read, or one with a signature appended,
and reads it again (`RoundTrips`); it may sort the signatures of an input, and writing or reading may fail.

## Model

| member | source | states |
|---|---|---|
| `Numbers.DecodeEncode` | pkg/arkade/bignum.go:442-459 | decoding undoes encoding for every integer; encodings are minimal; only zero is empty |
| `Numbers.EncodeDecode` | pkg/arkade/scriptnum.go:48-73 | encoding undoes decoding on exactly the byte strings that pass the minimality check |
| `Numbers.EncodeInjective` | pkg/arkade/bignum.go:45-58 | no two integers share an encoding |
| `Numbers.EncodeLength` | pkg/arkade/bignum.go:45-58 | an integer fits k bytes exactly when its magnitude leaves the sign bit of the k-th byte free |
| `Numbers.TruthyEncode` | pkg/arkade/stack.go:11-22 | an encoded number is true exactly when it is not zero |
| `BigNums.BigNum.Cmp` | pkg/arkade/bignum.go:119-124 | the order of the values, across both representations |
| `BigNums.BigNum.Sign` | pkg/arkade/bignum.go:102-107 | the sign of the value |
| `BigNums.BigNum.Add` | pkg/arkade/bignum.go:127-150 | integer addition; the fast form is kept exactly when both operands have it and the sum is an int64 |
| `BigNums.BigNum.Sub` | pkg/arkade/bignum.go:153-175 | integer subtraction; the fast form is kept exactly when the difference is an int64 |
| `BigNums.BigNum.Mul` | pkg/arkade/bignum.go:178-192 | integer multiplication; the fast form is kept exactly when the product is an int64 |
| `BigNums.BigNum.Div` | pkg/arkade/bignum.go:195-205 | truncating division; fails exactly on zero |
| `BigNums.BigNum.Mod` | pkg/arkade/bignum.go:208-218 | remainder of truncating division; fails exactly on zero |
| `BigNums.BigNum.Negate` | pkg/arkade/bignum.go:256-263 | integer negation, including the least int64 |
| `BigNums.BigNum.AbsoluteValue` | pkg/arkade/bignum.go:266-276 | integer absolute value, including the least int64 |
| `BigNums.BigNum.Lshift` | pkg/arkade/bignum.go:280-295 | multiplication by a power of two; fails exactly when the result needs more than 520 bytes, so the early exit rejects nothing that fits |
| `BigNums.BigNum.Rshift` | pkg/arkade/bignum.go:301-309 | rounds towards negative infinity |
| `BigNums.AddOverflow` | pkg/arkade/bignum.go:127-150 | the two xor tests are non-negative exactly when the sum is an int64 |
| `BigNums.SubOverflow` | pkg/arkade/bignum.go:153-175 | the two xor tests are non-negative exactly when the difference is an int64 |
| `BigNums.MulGuard` | pkg/arkade/bignum.go:178-192 | the divide-back guard, with its exception for -1 times the least int64, passes exactly when the product is an int64 |
| `BigNums.ShiftTooLong` | pkg/arkade/bignum.go:280-295 | a nonzero value shifted by more than 8k bits never fits k bytes |
| `NumberCodec.EncodeInt64` | pkg/arkade/bignum.go:412-439 | the int64 path computes the one encoding |
| `NumberCodec.EncodeBig` | pkg/arkade/bignum.go:442-459 | the big path computes the one encoding |
| `NumberCodec.DecodeInt64` | pkg/arkade/bignum.go:377-392 | the shift-and-or loop over at most 8 bytes decodes exactly |
| `NumberCodec.DecodeBig` | pkg/arkade/bignum.go:396-409 | the reversal loop over more than 8 bytes decodes exactly |
| `NumberCodec.NumBytes` | pkg/arkade/bignum.go:45-58 | the encoding, or an error exactly above 520 bytes |
| `NumberCodec.BigNumFromBytes` | pkg/arkade/bignum.go:332-348 | accepts exactly the minimal strings of at most 520 bytes, switching representation between 8 and 9 bytes |
| `NumberCodec.CheckMinimalDataEncoding` | pkg/arkade/scriptnum.go:48-73 | true exactly where encoding undoes decoding |
| `NumberCodec.FixedBytes` | pkg/arkade/bignum.go:63-91 | succeeds exactly when the encoding fits the size |
| `NumberCodec.DecodeFixed` | pkg/arkade/bignum.go:63-91 | the fixed-width form has the requested size and the same value |
| `NumberCodec.MinimallyEncode` | pkg/arkade/bignum.go:354-373 | the minimal encoding of the same value |
| `NumberCodec.MinimisingIsSafe` | pkg/arkade/bignum.go:354-373 | minimising keeps the value, never lengthens and is idempotent |
| `NumberCodec.MinimisingFixed` | pkg/arkade/bignum.go:354-373 | minimising a fixed-width form gives back the minimal encoding |
| `NumberCodec.ScriptNumBytes` | pkg/arkade/scriptnum.go:91-128 | the script number encoding of every int64 but the least |
| `NumberCodec.MakeScriptNum` | pkg/arkade/scriptnum.go:184-224 | decodes, or fails exactly on length or non-minimality |
| `NumberCodec.ScriptNumRange` | pkg/arkade/scriptnum.go:184-224 | a popped script number is below 2^31 in magnitude |
| `NumberCodec.AsBool` | pkg/arkade/stack.go:11-22 | the loop computes truth with negative zero false |
| `Stacks.Stack.NipN` | pkg/arkade/stack.go:180-201 | removes one item in each of the three in-place cases and returns it; nothing changes on a bad index; errors exactly as the specification |
| `Stacks.Stack.Tuck` | pkg/arkade/stack.go:218-232 | copies the top item before the second; errors exactly as the specification |
| `Stacks.Stack.DropN` | pkg/arkade/stack.go:239-252 | removes the n top items; errors exactly as the specification |
| `Stacks.Stack.DupN` | pkg/arkade/stack.go:259-275 | repeats the n top items; errors exactly as the specification |
| `Stacks.Stack.OverN` | pkg/arkade/stack.go:331-349 | copies the n items before the top n; errors exactly as the specification |
| `Stacks.Stack.RotN` | pkg/arkade/stack.go:282-300 | moves the third group of n items to the top; errors exactly as the specification |
| `Stacks.Stack.SwapN` | pkg/arkade/stack.go:307-324 | swaps the two top groups of n items; errors exactly as the specification |
| `Stacks.Stack.PickN` | pkg/arkade/stack.go:357-365 | copies an item from any depth; errors exactly as the specification |
| `Stacks.Stack.RollN` | pkg/arkade/stack.go:373-382 | moves an item from any depth to the top; errors exactly as the specification |
| `Stacks.RotateThrice` | pkg/arkade/stack.go:282-300 | three rotations are the identity |
| `Stacks.SwapTwice` | pkg/arkade/stack.go:307-324 | two swaps are the identity |
| `Stacks.DropUndoesDup` | pkg/arkade/stack.go:239-275 | dropping undoes duplicating |
| `Stacks.RollIsRotation` | pkg/arkade/stack.go:373-382 | rolling the third item from the top is one rotation of three, rolling the second is one swap |
| `Stacks.RollsRestore` | pkg/arkade/stack.go:373-382 | rolling an item from one depth over and over rotates the items down to it, and as often as there are of them restores the stack |
| `Stacks.RollStep` | pkg/arkade/stack.go:282-300 | each roll of the loop body advances the rotation by one item |
| `Tokenizers.ScriptTokenizer.Next` | pkg/arkade/tokenizer.go:61-147 | parses exactly the first token of the rest, or stops with its error without moving |
| `Tokenizers.TokenizeEncoded` | pkg/arkade/tokenizer.go:61-147 | every list of well-formed tokens parses back to itself |
| `Tokenizers.EncodeTokenized` | pkg/arkade/tokenizer.go:61-147 | the tokens of a script that parses are well formed and partition its bytes |
| `Tokenizers.CheckScriptParses` | pkg/arkade/engine.go:951-957 | passes exactly the scripts that are token lists, otherwise reports the first error |
| `Opcodes.UnaryOpcode` | pkg/arkade/opcode.go:1263-1335 | one-operand arithmetic: stack and error are exactly the meaning of the opcode in the machine specification |
| `Opcodes.BinaryOpcode` | pkg/arkade/opcode.go:1339-1581 | two-operand arithmetic, logic and comparison: stack and error are exactly the meaning of the opcode in the machine specification |
| `Opcodes.WithinOpcode` | pkg/arkade/opcode.go:1591-1608 | the half-open range test: stack and error are exactly the meaning of the opcode in the machine specification |
| `Opcodes.ShiftOpcode` | pkg/arkade/opcode.go:2509-2546 | shifts by a script number, negative shifts refused: stack and error are exactly the meaning of the opcode in the machine specification |
| `Opcodes.Num2BinOpcode` | pkg/arkade/opcode.go:1614-1634 | fixed-width form or error: stack and error are exactly the meaning of the opcode in the machine specification |
| `Opcodes.Bin2NumOpcode` | pkg/arkade/opcode.go:1640-1652 | minimal form of any element of at most 520 bytes: stack and error are exactly the meaning of the opcode in the machine specification |
| `Opcodes.StackOpcode` | pkg/arkade/opcode.go:1065-1226 | stack opcodes: stack and error are exactly the meaning of the opcode in the machine specification |
| `Opcodes.CatOpcode` | pkg/arkade/opcode.go:2191-2209 | concatenation up to 520 bytes: stack and error are exactly the meaning of the opcode in the machine specification |
| `Opcodes.SubstrOpcode` | pkg/arkade/opcode.go:2213-2234 | bounded substring: stack and error are exactly the meaning of the opcode in the machine specification |
| `Opcodes.SideOpcode` | pkg/arkade/opcode.go:2238-2276 | bounded left and right parts: stack and error are exactly the meaning of the opcode in the machine specification |
| `Opcodes.CombineOpcode` | pkg/arkade/opcode.go:2297-2368 | bytewise and, or, xor on equal lengths: stack and error are exactly the meaning of the opcode in the machine specification |
| `Opcodes.RewriteOpcode` | pkg/arkade/opcode.go:1663-1675 | inversion and reversal by buffer loops: stack and error are exactly the meaning of the opcode in the machine specification |
| `Opcodes.EqualOpcode` | pkg/arkade/opcode.go:1232-1244 | byte equality: stack and error are exactly the meaning of the opcode in the machine specification |
| `Opcodes.AbstractVerify` | pkg/arkade/opcode.go:904-915 | fails with the given code unless the top is true: stack and error are exactly the meaning of the opcode in the machine specification |
| `Opcodes.DigestOpcode` | pkg/arkade/opcode.go:1741-1769 | selected hash: stack and error are exactly the meaning of the opcode in the machine specification |
| `Opcodes.InspectInputOpcode` | pkg/arkade/opcode.go:1989-2112 | input introspection: stack and error are exactly the meaning of the opcode in the machine specification |
| `Opcodes.InspectOutputOpcode` | pkg/arkade/opcode.go:2124-2155 | output introspection: stack and error are exactly the meaning of the opcode in the machine specification |
| `Opcodes.InspectPacketOpcode` | pkg/arkade/opcode.go:3014-3044 | content of a packet type, with presence flag: stack and error are exactly the meaning of the opcode in the machine specification |
| `Opcodes.SighashOpcode` | pkg/arkade/opcode.go:2933-2980 | digest for a valid hash type: stack and error are exactly the meaning of the opcode in the machine specification |
| `Opcodes.CheckSigFromStackOpcode` | pkg/arkade/opcode.go:2550-2580 | signature check under the scheme of the key; empty signature is false, invalid one an error: stack and error are exactly the meaning of the opcode in the machine specification |
| `NumberLaws.UnaryArithmetic` | pkg/arkade/opcode.go:1263-1299 | 1ADD, 1SUB, 2MUL, NEGATE and ABS leave the plain integer result, or fail exactly when it is longer than 520 bytes |
| `NumberLaws.Halving` | pkg/arkade/opcode.go:2382-2392 | 2DIV leaves the half, rounded towards zero |
| `NumberLaws.BinaryArithmetic` | pkg/arkade/opcode.go:1339-1349 | ADD, SUB and MUL leave sum, difference and product, the operand pushed last on the right |
| `NumberLaws.Division` | pkg/arkade/opcode.go:2411-2444 | DIV and MOD leave the quotient and remainder with the remainder below the divisor and of the sign of the dividend; zero is refused |
| `NumberLaws.Extremes` | pkg/arkade/opcode.go:1549-1581 | MIN and MAX leave the operand that is at most, or at least, both |
| `NumberLaws.ZeroTests` | pkg/arkade/opcode.go:1311-1335 | NOT and 0NOTEQUAL are true exactly for zero and for other numbers |
| `NumberLaws.Connectives` | pkg/arkade/opcode.go:1372-1407 | BOOLAND and BOOLOR of two numbers taken as truth values |
| `NumberLaws.Equalities` | pkg/arkade/opcode.go:1414-1427 | NUMEQUAL and NUMNOTEQUAL are true exactly for equal and different numbers |
| `NumberLaws.Orders` | pkg/arkade/opcode.go:1470-1543 | the four comparisons are true exactly when the relation holds |
| `NumberLaws.EqualNumbersVerified` | pkg/arkade/opcode.go:1437-1443 | NUMEQUALVERIFY goes on exactly between equal numbers |
| `NumberLaws.Ranges` | pkg/arkade/opcode.go:1591-1608 | WITHIN is true exactly inside the half-open range |
| `NumberLaws.Shifts` | pkg/arkade/opcode.go:2509-2546 | LSHIFT multiplies by a power of two, RSHIFT leaves the quotient rounded down, negative counts are refused |
| `NumberLaws.Widths` | pkg/arkade/opcode.go:1614-1652 | NUM2BIN succeeds exactly when the number fits and leaves that width with the same value, and BIN2NUM undoes it |
| `NumberLaws.OperandsChecked` | pkg/arkade/bignum.go:332-348 | a number on top that is too long or not minimal is refused by every numeric opcode, and so is an empty stack |
| `NumberLaws.SignMagnitude` | pkg/arkade/bignum.go:412-459 | a positive number is written little-endian with the high bit of the last byte free, and its negative differs in that bit alone |
| `NumberLaws.TruthIsNonzero` | pkg/arkade/stack.go:11-22 | an item is true exactly when its value as a number is not zero |
| `StackLaws.TopItem` | pkg/arkade/opcode.go:1109-1146 | DROP, DUP, IFDUP and SIZE, item by item |
| `StackLaws.TwoItems` | pkg/arkade/opcode.go:1065-1074 | 2DROP, 2DUP and OVER, item by item |
| `StackLaws.TwoExchanged` | pkg/arkade/opcode.go:1202-1212 | SWAP, NIP and TUCK, item by item |
| `StackLaws.ThreeItems` | pkg/arkade/opcode.go:1079-1081 | 3DUP and ROT, item by item |
| `StackLaws.Pairs` | pkg/arkade/opcode.go:1086-1103 | 2OVER, 2SWAP and 2ROT, item by item |
| `StackLaws.Depths` | pkg/arkade/opcode.go:1168-1190 | PICK copies and ROLL moves the item below as many others as given; other depths are refused |
| `StackLaws.TooFew` | pkg/arkade/opcode.go:1065-1226 | with fewer items than they need the stack opcodes fail |
| `StackLaws.AltStack` | pkg/arkade/opcode.go:1037-1060 | what goes to the alternate stack comes back |
| `StackLaws.Joining` | pkg/arkade/opcode.go:2191-2209 | CAT joins exactly when the result fits one item |
| `StackLaws.Cutting` | pkg/arkade/opcode.go:2238-2276 | LEFT and RIGHT cut a string in two, CAT puts it together again, and lengths that do not fit are refused |
| `StackLaws.Substrings` | pkg/arkade/opcode.go:2213-2234 | SUBSTR leaves the bytes at the given place and length, or fails exactly when they are not there |
| `StackLaws.Inverting` | pkg/arkade/opcode.go:2280-2293 | INVERT complements every byte, and twice is the identity |
| `StackLaws.Reversing` | pkg/arkade/opcode.go:1663-1675 | REVERSEBYTES turns a string around, and twice is the identity |
| `StackLaws.BitOpcodes` | pkg/arkade/opcode.go:2297-2368 | AND, OR and XOR act on every bit of strings of one length and refuse others |
| `StackLaws.Equality` | pkg/arkade/opcode.go:1232-1259 | EQUAL compares bytes, EQUALVERIFY goes on exactly between equal strings |
| `StackLaws.Verifying` | pkg/arkade/opcode.go:919-921 | VERIFY drops exactly a true item |
| `StackLaws.Markers` | pkg/arkade/opcode.go:751-761 | NOP, RETURN and CODESEPARATOR |
| `StackLaws.Branching` | pkg/arkade/opcode.go:805-855 | IF and NOTIF take one byte of one as true, the empty string as false, and nothing else |
| `StackLaws.BranchEnds` | pkg/arkade/opcode.go:862-897 | ELSE turns its branch around, ENDIF leaves it, and both need one |
| `StackLaws.MinimalIsShortest` | pkg/arkade/engine.go:248-290 | a push is minimal exactly when every other push of the same bytes is longer |
| `InspectLaws.Hashes` | pkg/arkade/opcode.go:1687-1725 | each hash opcode leaves its own hash, single or double |
| `InspectLaws.Digests` | pkg/arkade/opcode.go:1741-1769 | DIGEST numbers five hashes and refuses the rest |
| `InspectLaws.InputFields` | pkg/arkade/opcode.go:1989-2010 | outpoint and sequence of an input, or an error exactly out of range |
| `InspectLaws.SpentFields` | pkg/arkade/opcode.go:2015-2093 | value and script of what an input spends |
| `InspectLaws.OutputFields` | pkg/arkade/opcode.go:2124-2155 | value and script of an output, or an error exactly out of range |
| `InspectLaws.TransactionFields` | pkg/arkade/opcode.go:2159-2187 | version, lock time, counts, current index and weight |
| `InspectLaws.Packets` | pkg/arkade/opcode.go:3014-3044 | the content of the packet of a type in the first extension output, two empty items without one, an error for an unreadable extension |
| `InspectLaws.Digesting` | pkg/arkade/opcode.go:2933-2980 | SIGHASH accepts seven types and leaves the digest from the current separator |
| `InspectLaws.StackSignatures` | pkg/arkade/opcode.go:2550-2580 | a nonempty signature passes exactly when it is valid under a valid key of one of three forms; an empty one is false |
| `InspectLaws.Anywhere` | pkg/arkade/engine.go:295-327 | what is refused even in a branch that does not run, and that nothing else happens there |
| `InspectLaws.RunningOpcode` | pkg/arkade/engine.go:295-327 | in a running branch: minimal pushes, the charge, the opcode, and limits of 1000 items and 131072 bytes |
| `InspectLaws.ChargeMeans` | pkg/arkade/engine.go:333-349 | a charge passes exactly when both tables allow one more |
| `InspectLaws.Success` | pkg/arkade/engine.go:566-598 | a script succeeds exactly when it runs to its end with one item whose value is not zero |
| `InspectLaws.EvaluationMeans` | pkg/arkade/script.go:200-282 | which scripts an engine is created for, and that success is the outcome of running them |
| `Engines.Engine.ChargeOpcode` | pkg/arkade/engine.go:333-349 | one charge against the input table and the shared budget, in this order; the counter that refuses has grown |
| `Engines.Engine.IfOpcode` | pkg/arkade/opcode.go:805-855 | pushes the branch state, popping a minimal bool only where execution is active |
| `Engines.Engine.ElseOpcode` | pkg/arkade/opcode.go:862-880 | flips the innermost active branch in place |
| `Engines.Engine.EndIfOpcode` | pkg/arkade/opcode.go:888-897 | closes the innermost conditional |
| `Engines.Engine.ExecuteOpcode` | pkg/arkade/engine.go:295-327 | the order of the checks before an opcode runs |
| `Engines.Engine.Step` | pkg/arkade/engine.go:606-699 | one step takes one token off what remains to be done and changes the outcome of nothing |
| `Engines.Engine.Execute` | pkg/arkade/engine.go:724-783 | terminates with the outcome the scripts denote, after one step per token |
| `Engines.ExecuteScript` | pkg/arkade/script.go:200-282 | creating an engine, setting the stack and executing returns what the script evaluates to |
| `Engines.IsPushOnlyScript` | pkg/arkade/engine.go:833-929 | a signature script passes exactly when it only pushes |
| `Engines.Engine.CheckErrorCondition` | pkg/arkade/engine.go:566-598 | a final script succeeds exactly when one true item is left, another one when the top item is true |
| `ScriptVM.RunAppend` | pkg/arkade/engine.go:606-699 | a run of two token lists is the second run from where the first ends |
| `Conditionals.TopDecides` | pkg/arkade/engine.go:205-210 | the top of the conditional stack is true exactly when every enclosing branch is active |
| `Conditionals.StepKeepsCondInvariant` | pkg/arkade/opcode.go:805-897 | every token keeps: an entry is skip exactly when the entry below is not true |
| `Conditionals.RunKeepsCondInvariant` | pkg/arkade/opcode.go:805-897 | the same over every run |
| `Conditionals.FlatBlockRefines` | pkg/arkade/opcode.go:805-897 | in any conditional context a structured block, with repeated else, runs to the recursive meaning of its syntax tree |
| `Conditionals.StructuredScript` | pkg/arkade/engine.go:606-699 | a whole structured script runs to its recursive meaning and closes |
| `Conditionals.BalancedIsStructured` | pkg/arkade/opcode.go:805-897 | every balanced list of tokens is the flattening of a syntax tree |
| `Conditionals.StructuredIsBalanced` | pkg/arkade/opcode.go:805-897 | and every flattened tree is balanced |
| `Conditionals.OnlyBalancedRuns` | pkg/arkade/engine.go:606-699 | a script that runs to its end is balanced: an else or endif outside a conditional, or an open conditional at the end, is an error |
| `Conditionals.ScriptIsStructured` | pkg/arkade/engine.go:606-699 | every balanced script is a flattened tree and runs to its recursive meaning, errors included |
| `VmInvariants.StepBounded` | pkg/arkade/engine.go:636-652 | after every successful step both stack limits hold and elements are at most 520 bytes |
| `VmInvariants.RunBounded` | pkg/arkade/engine.go:636-652 | the same over every run |
| `VmInvariants.RunCharges` | pkg/arkade/engine.go:333-349 | a run charges both tables with exactly the opcodes it executed |
| `VmInvariants.InputWithinBudget` | pkg/arkade/engine.go:333-349 | in one input no limited opcode runs more often than its limit, and the shared counters grow by what ran |
| `VmInvariants.RequestWithinBudget` | pkg/arkade/compute_limits.go:129-151 | over a whole request the total of each opcode stays within the aggregate limit |
| `ComputeLimits.AggregateComputeLimits` | pkg/arkade/compute_limits.go:67-78 | four times each limit, saturating, on the same opcodes |
| `ComputeLimits.ScaledIs` | pkg/arkade/compute_limits.go:67-78 | exactly four times the limit, or the largest integer |
| `ComputeLimits.ComputeBudget.Charge` | pkg/arkade/compute_limits.go:129-151 | counts, and refuses exactly above the limit; the count grows even then |
| `ComputeLimits.ChargeAllExact` | pkg/arkade/compute_limits.go:129-151 | a sequence of charges is admitted exactly when no limited opcode exceeds its limit |
| `ComputeLimits.SharedBudgetSuffices` | pkg/arkade/compute_limits.go:67-78 | what up to four inputs charge within their own limits the scaled limits admit |
| `RequestBudget.StepShares` | pkg/arkade/engine.go:333-349 | a step under the shared budget is the step without it and one more charge |
| `RequestBudget.RunShares` | pkg/arkade/engine.go:333-349 | a run is refused by the shared budget only if the budget refuses its charges |
| `RequestBudget.RequestNeverRefused` | pkg/arkade/compute_limits.go:67-151 | up to four inputs that each run within their limits run together under the shared budget |
| `StraightLine.RunIsFlow` | pkg/arkade/engine.go:606-699 | a successful run of a script without conditionals computes the fold of its opcodes over the data stack |
| `StraightLine.FlowIsRun` | pkg/arkade/engine.go:606-699 | a short such script whose fold succeeds also runs: no machine limit interferes |
| `ExtensionFormat.ReadWrittenCompactSize` | poc/2fa-vault/web/psbtcheck.js:780-805 | reading undoes writing for compact sizes, with the width of each range |
| `ExtensionFormat.ReadWrittenUvarint` | poc/2fa-vault/web/psbtcheck.js:807-829 | reading undoes writing for uvarints |
| `ExtensionFormat.ReadWrittenPush` | poc/2fa-vault/web/psbtcheck.js:719-751 | reading undoes writing for pushes |
| `ExtensionFormat.ParseEncodedExtension` | poc/2fa-vault/web/psbtcheck.js:629-687 | parsing undoes encoding for every nonempty list of packets with distinct types |
| `Transactions.WitnessProgramUnique` | pkg/arkade/opcode.go:2043-2065 | version and program determine a witness program script |
| `Transactions.FirstExtensionIndex` | pkg/arkade/opcode.go:2985-3007 | the first output that is an extension, or none is |
| `EmulatorPackets.Serialize` | pkg/arkade/emulator_packet.go:81-117 | writes the content bytes of the packet |
| `EmulatorPackets.SerializeMasked` | pkg/arkade/emulator_packet.go:125-149 | writes the packet of the same entries with their stacks left out |
| `EmulatorPackets.Validate` | pkg/arkade/emulator_packet.go:54-72 | reports the first fault |
| `EmulatorPackets.FaultlessIsValid` | pkg/arkade/emulator_packet.go:54-72 | no fault exactly for nonempty packets of at most 1000 entries with scripts and distinct inputs |
| `EmulatorPackets.Deserialize` | pkg/arkade/emulator_packet.go:152-229 | the loop reads what the format denotes, or its first error |
| `EmulatorPackets.ReadWrittenContent` | pkg/arkade/emulator_packet.go:81-229 | deserializing undoes serializing on every valid packet within the limits, whatever form an empty stack takes |
| `EmulatorPackets.ReadMasked` | pkg/arkade/emulator_packet.go:125-150 | the masked form reads back as the same entries without stacks |
| `EmulatorPackets.MaskedInjective` | pkg/arkade/emulator_packet.go:125-150 | masked forms are equal exactly when input indices and scripts are |
| `EmulatorPackets.AcceptedIsWritten` | pkg/arkade/emulator_packet.go:152-229 | accepted bytes are a valid packet, its scripts and written stacks together within the total limit, written canonically but for the inside of its stacks |
| `EmulatorPackets.ReadVarIntIsCanonical` | pkg/arkade/emulator_packet.go:152-229 | only the shortest form of a length is read |
| `SigMessages.MaskExtensionOutput` | pkg/arkade/sigvalidate.go:294-334 | the masked output and its place, nothing, or the error, as the masked outputs say |
| `SigMessages.ArkadeOutputsHash` | pkg/arkade/sigvalidate.go:339-354 | hashes the masked outputs in order |
| `SigMessages.BuildArkadeSigMsg` | pkg/arkade/sigvalidate.go:156-282 | builds the message of its parts, with the same errors in the same order |
| `SigMessages.MessageIgnoresStacks` | pkg/arkade/sigvalidate.go:156-354 | for every hash type, transactions that differ only in the stacks of the packet have the same message |
| `SigMessages.OutputsCommitted` | pkg/arkade/sigvalidate.go:339-354 | the hashed output bytes are equal exactly when the masked outputs are |
| `SigMessages.SamePackets` | pkg/arkade/sigvalidate.go:294-334 | extensions masked alike hold the same packets up to the stacks of the emulator entries |
| `SigCommit.MessageCommits` | pkg/arkade/sigvalidate.go:156-282 | two messages of one type are equal exactly when the fields the type commits to are: version, lock time, annex, leaf and separator; all inputs or the one; all outputs, the one or none |
| `SigCommit.MessageExists` | pkg/arkade/sigvalidate.go:156-282 | for which contexts and types there is a message |
| `SigCommit.TypeIsCommitted` | pkg/arkade/sigvalidate.go:156-282 | messages of different types are different |
| `SigCommit.DefaultLayout` | pkg/arkade/sigvalidate.go:156-282 | the bytes of the default message, in the order of BIP 341 and BIP 342 |
| `FormatLaws.TokenBytes` | pkg/arkade/tokenizer.go:61-147 | the bytes of each kind of token |
| `FormatLaws.TokensAre` | pkg/arkade/tokenizer.go:61-147 | which tokens there are |
| `FormatLaws.EntryBytes` | pkg/arkade/emulator_packet.go:81-117 | the bytes of a packet of one entry |
| `FormatLaws.ExtensionBytes` | poc/2fa-vault/web/psbtcheck.js:678-687 | the bytes of an extension output of one packet |
| `FormatLaws.OnlyPacketsRead` | pkg/arkade/emulator_packet.go:152-229 | whatever is read is one to a thousand entries of different inputs with nonempty scripts, within the limits |
| `FormatLaws.EveryPacketRead` | pkg/arkade/emulator_packet.go:152-229 | entries that fit are read back exactly when they are such a list |
| `FormatLaws.CanonicalMeans` | poc/2fa-vault/web/psbtcheck.js:499-524 | what the browser accepts, over the entry and its one encoding |
| `FormatLaws.ExtensionMeans` | poc/2fa-vault/web/psbtcheck.js:629-652 | every output of OP_RETURN, one push and the magic is an extension |
| `FormatLaws.ExtensionOnly` | poc/2fa-vault/web/psbtcheck.js:629-652 | nothing else is, and its packets are at least one and of different types |
| `FormatLaws.StrippedSizeIsLength` | pkg/arkade/opcode.go:2185-2187 | the stripped size is the length of the wire form without witnesses |
| `VaultPieces.RecipientFlow` | poc/2fa-vault/internal/vault/script.go:89-97 | the recipient piece passes exactly witness programs |
| `VaultPieces.ChangeFlow` | poc/2fa-vault/internal/vault/script.go:109-119 | the change piece passes exactly a version-one program equal to the spent one |
| `VaultPieces.PacketFlow` | poc/2fa-vault/internal/vault/script.go:124-135 | the packet piece passes exactly when prefix and content hash like the last output |
| `VaultPieces.ComputeFeeFlow` | poc/2fa-vault/internal/vault/script.go:136-143 | leaves input minus both outputs, or stops on a value outside the money range |
| `VaultPieces.FeerateFlow` | poc/2fa-vault/internal/vault/script.go:154-166 | passes exactly fees within feerate times size, without overflow |
| `VaultPieces.SignatureFlow` | poc/2fa-vault/internal/vault/script.go:168-171 | leaves one true item exactly for a starting stack of one valid signature |
| `VaultProof.ChecksFlow` | poc/2fa-vault/internal/vault/script.go:61-166 | everything before the signature passes exactly when the policy holds, and leaves the stack as it was |
| `VaultProof.ProgramRuns` | poc/2fa-vault/internal/vault/script.go:61-173 | the program runs on the machine exactly as it folds |
| `VaultProof.AcceptsExactlyPolicy` | poc/2fa-vault/internal/vault/script.go:61-173 | the machine accepts the script exactly when the transaction meets the policy and the stack is one valid signature over it |
| `VaultEnvelope.ExactPacketOutputPrefix` | poc/2fa-vault/internal/vault/script.go:178-202 | the prefix, or the error |
| `VaultEnvelope.PrefixIsEnvelope` | poc/2fa-vault/internal/vault/script.go:178-202 | for every script length that fits a push the prefix is the envelope of that length |
| `VaultEnvelope.EnvelopeThenContent` | poc/2fa-vault/internal/vault/script.go:178-202 | the envelope of a length before any content of that length is the canonical extension |
| `VaultEnvelope.ScriptLength` | poc/2fa-vault/internal/vault/script.go:61-173 | a longer prefix lengthens the script by as much |
| `VaultEnvelope.EnvelopeMonotone` | poc/2fa-vault/internal/vault/script.go:178-202 | longer scripts have no shorter envelopes |
| `VaultEnvelope.AuthorizationScript` | poc/2fa-vault/internal/vault/script.go:32-59 | the loop of at most eight rounds |
| `VaultEnvelope.AuthorizationConverges` | poc/2fa-vault/internal/vault/script.go:32-59 | the loop succeeds exactly for a canonical key and a valid policy, on a script that embeds the envelope of its own length |
| `VaultEnvelope.EnvelopeIsExact` | poc/2fa-vault/internal/vault/script.go:32-59 | for every 64-byte item, embedded prefix and serialized packet are the exact canonical output script and fit one element |
| `VaultAccepts.PacketClause` | poc/2fa-vault/internal/vault/script.go:124-135 | without a hash collision, the packet clause says that the last output is the envelope and a content of its length |
| `VaultAccepts.AcceptsExactlySpend` | poc/2fa-vault/internal/vault/script.go:32-59 | what the committed script accepts, in terms of the transaction alone |
| `VaultFacts.AllowedMeans` | poc/2fa-vault/internal/vault/script.go:61-173 | what the script allows, field by field over the transaction |
| `VaultRun.SignatureIsOverMessage` | pkg/arkade/sigvalidate.go:36-65 | when the machine's digest hashes the signature message, the signature clause is a valid signature over that message |
| `VaultRun.BindingKeepsSignature` | pkg/arkade/sigvalidate.go:156-354 | putting the signature into the packet it signs, or changing any stack of the packet, leaves it as valid as it was |
| `VaultRun.RunAuthorization` | pkg/arkade/script.go:200-282 | building the authorization script and executing it on the engine accepts exactly the allowed spends with one valid signature over their message |
| `Classify.SizesCoincide` | poc/2fa-vault/internal/provider/classify.go:244-255 | both size formulas agree when the routine witness has 399 bytes, as it has for its template sizes |
| `Classify.AddSatsExact` | poc/2fa-vault/internal/provider/classify.go:234-242 | refuses exactly the sums that leave int64 |
| `Classify.NativeIsSpendable` | poc/2fa-vault/internal/provider/classify.go:168-173 | a witness program is never unspendable: that check refuses nothing more |
| `Classify.FindEmulatorPacket` | pkg/arkade/emulator_packet.go:234-268 | the first packet of the type, with its inputs in range |
| `Classify.CheckPacketOutput` | poc/2fa-vault/internal/provider/classify.go:106-152 | passes exactly the canonical one-entry packet of the vault in the last output |
| `Classify.SortOutputs` | poc/2fa-vault/internal/provider/classify.go:103-194 | the loop passes exactly recipient, change and packet in this order |
| `Classify.SumOutputs` | poc/2fa-vault/internal/provider/classify.go:197-207 | the sum of outputs in range, or an error exactly otherwise |
| `Classify.ClassifyShape` | poc/2fa-vault/internal/provider/classify.go:58-221 | accepts exactly the spend shape, with recipient, fee and size |
| `Classify.EnforceStaticPolicy` | poc/2fa-vault/internal/provider/classify.go:39-56 | passes exactly the static policy, whose feerate product is an int64 |
| `Classify.WrappedLimit` | poc/2fa-vault/internal/provider/classify.go:52-54 | a wrapped product is never above the real one, and is the real one when that is an int64 |
| `Classify.FeerateChecksAgree` | poc/2fa-vault/internal/provider/classify.go:52-54 | up to a highest fee the check and the real limit agree if and only if the product is an int64 or wraps to no less than that fee |
| `Classify.ClassifierIsExact` | poc/2fa-vault/internal/provider/classify.go:28-57 | among the spends of one size, accepting is the same as being of the right shape within the real caps, if and only if the product is an int64 or wraps to no less than the highest fee a spend can pay |
| `Classify.ClassifySpend` | poc/2fa-vault/internal/provider/classify.go:28-37 | accepts exactly the shape under the caps |
| `Classify.AcceptedConserves` | poc/2fa-vault/internal/provider/classify.go:28-37 | the input is recipient, change, packet and fee; the change goes back to the vault |
| `ClassifyFacts.ShapeIsFields` | poc/2fa-vault/internal/provider/classify.go:58-221 | the accepted shape is exactly these fields: one final input of the vault with the routine leaf alone, recipient, change, canonical packet |
| `ClassifyFacts.AcceptedFields` | poc/2fa-vault/internal/provider/classify.go:28-37 | an accepted spend has all of them, is within the caps, and was measured with the witness of its own leaf and control block |
| `ClassifyFacts.OtherLeafRefused` | poc/2fa-vault/internal/provider/classify.go:89-101 | any other leaf, none, or more than one is refused |
| `ClassifyFacts.OtherInputRefused` | poc/2fa-vault/internal/provider/classify.go:65-79 | another version, lock time, sequence, number of inputs or hash type is refused |
| `ClassifyFacts.OtherVaultRefused` | poc/2fa-vault/internal/provider/classify.go:80-88 | an unknown spent output, another script or an amount out of range is refused |
| `ClassifyFacts.OtherRecipientRefused` | poc/2fa-vault/internal/provider/classify.go:164-183 | a recipient that is no witness program, the vault or the anchor, or of a wrong amount, is refused |
| `ClassifyFacts.OtherOutputsRefused` | poc/2fa-vault/internal/provider/classify.go:153-211 | another number of outputs, other change, a valued packet output or paying out too much is refused |
| `ClassifyFacts.OtherPacketRefused` | poc/2fa-vault/internal/provider/classify.go:106-152 | another packet, entry, script or writing is refused |
| `ClassifyFacts.HighFeeRefused` | poc/2fa-vault/internal/provider/classify.go:39-56 | a fee above either ceiling is refused |
| `VaultSpend.PolicyIsCaps` | poc/2fa-vault/internal/vault/script.go:61-173 | for a spend of the classifier's shape, bound to a 64-byte item, the policy of the script is the classifier's caps with no width on the product |
| `VaultSpend.AcceptedMeetsPolicy` | poc/2fa-vault/internal/provider/classify.go:28-266 | an accepted spend bound to a 64-byte item meets the policy of the script |
| `VaultSpend.AcceptedSpendRuns` | poc/2fa-vault/internal/provider/classify.go:28-266 | and the machine accepts its authorization script, given a valid signature |
| `VaultSpend.ShapedSpendRuns` | poc/2fa-vault/internal/provider/classify.go:28-266 | for a spend of the right shape with a valid signature, the machine accepts exactly within the real caps |
| `VaultSpend.CheckerIsExact` | poc/2fa-vault/internal/provider/classify.go:28-266 | where the feerate product is exact, the machine accepts such a spend exactly when the classifier does |
| `VaultSpend.WrappingRefuses` | poc/2fa-vault/internal/provider/classify.go:52-54 | for a feerate of 3e16 a packet of the right shape, bound and without any fee, which the policy of the script allows and the classifier refuses |
| `Issuance.AddOutflowExact` | poc/2fa-vault/internal/policy/ledger.go:655-663 | succeeds exactly for non-negative amounts whose sum is an int64 |
| `Ledgers.Ledger.SpentInPeriod` | poc/2fa-vault/internal/policy/ledger.go:688-699 | the sum of recipient and fee over all rows of a vault and period |
| `Ledgers.Ledger.CompletedText` | poc/2fa-vault/internal/policy/ledger.go:702-719 | the stored signed text of a completed key |
| `Ledgers.Ledger.CommitReservation` | poc/2fa-vault/internal/policy/ledger.go:864-956 | one atomic transaction: read and check the bound row, or charge a new one, or nothing |
| `Ledgers.Ledger.CommitSigningStage` | poc/2fa-vault/internal/policy/ledger.go:992-1035 | one atomic update of exactly the row in the wanted state |
| `Ledgers.Ledger.IssueInStages` | poc/2fa-vault/internal/policy/ledger.go:783-862 | rows, history and result are those of the machine run on the call's six actions |
| `Ledgers.Ledger.IssueSequential` | poc/2fa-vault/internal/policy/ledger.go:758-773 | a staged call is such a run |
| `Ledgers.Ledger.Issue` | poc/2fa-vault/internal/policy/ledger.go:734-750 | a legacy call is such a run that never resumes and has no public stage |
| `IssuanceProofs.StepKeeps` | poc/2fa-vault/internal/policy/ledger.go:783-956 | every step, with any signer answer, database outcome or crash, keeps the invariant that ties rows, history and the call in progress |
| `IssuanceProofs.RunKeeps` | poc/2fa-vault/internal/policy/ledger.go:783-956 | the same over every run |
| `IssuanceProofs.AllowanceHolds` | poc/2fa-vault/internal/policy/ledger.go:655-663 | in every run with a common cap no vault exceeds it in any period, and no sum leaves int64 |
| `IssuanceProofs.ChargedOnce` | poc/2fa-vault/internal/policy/ledger.go:864-956 | a key has one row, which keeps its charge and period |
| `IssuanceProofs.RunGrows` | poc/2fa-vault/internal/policy/ledger.go:958-1035 | rows only move forward; request, amounts and stored signatures never change |
| `IssuanceProofs.HistoryIsOrdered` | poc/2fa-vault/internal/policy/ledger.go:783-862 | the private signer is asked only after the reservation is stored and never after a vault signature is; the public signer sees only the stored vault text and never after completion; replies carry the stored text; each stage is stored once |
| `IssuanceProofs.LegacySignsOnce` | poc/2fa-vault/internal/policy/ledger.go:734-748 | a key issued by legacy calls alone reaches its signer at most once |
| `IssuanceProofs.CompletedReplays` | poc/2fa-vault/internal/policy/ledger.go:814-820 | a completed key replays its stored text without asking a signer or charging |
| `IssuanceProofs.RunReplies` | poc/2fa-vault/internal/policy/ledger.go:783-862 | a signed reply is the stored text of a row bound to the call's request |
| `IssuanceProgress.ReservedCompletes` | poc/2fa-vault/internal/policy/ledger.go:783-862 | a bound reservation left by a crash is resumed and completed: the private signer sees the request, the public one its answer |
| `IssuanceProgress.VaultSignedCompletes` | poc/2fa-vault/internal/policy/ledger.go:783-862 | after a stored vault signature only the public signer is asked, and the row completes |
| `IssuanceProgress.NewCompletes` | poc/2fa-vault/internal/policy/ledger.go:783-862 | a new request within the allowance is charged once and completed |
| `IssuanceProgress.LegacyCompletes` | poc/2fa-vault/internal/policy/ledger.go:734-750 | a new legacy request completes with the answer of its one signer |
| `IssuanceProgress.RetryCompletes` | poc/2fa-vault/internal/policy/ledger.go:758-773 | after any history and any crash, a clean staged call for a bound row ends with a completed row and its text as reply |
| `IssuanceProgress.AllowanceDecides` | poc/2fa-vault/internal/policy/ledger.go:864-956 | a new request is stored exactly when spent plus outflow is within the cap, and otherwise refused for that |
| `IssuanceProgress.SpentCounts` | poc/2fa-vault/internal/policy/ledger.go:688-699 | spent counts recipient and fee of each row of the vault and period, and no other |
| `IssuanceProgress.OtherRequestRefused` | poc/2fa-vault/internal/policy/ledger.go:864-956 | a row bound to another packet, recipient amount or fee refuses the call; nobody is asked |
| `IssuanceProgress.LegacyAttemptRefused` | poc/2fa-vault/internal/policy/ledger.go:734-750 | a legacy call never takes up a reservation again |
| `IssuanceProgress.FaultRefused` | poc/2fa-vault/internal/policy/ledger.go:783-862 | a malformed request is refused before anything happens |
| `IssuanceProgress.FailedSignerKeepsReservation` | poc/2fa-vault/internal/policy/ledger.go:783-862 | a signer that fails or answers nothing leaves the reservation for the next call |
| `IssuanceProgress.ReservationFails` | poc/2fa-vault/internal/policy/ledger.go:864-956 | a rolled back reservation leaves no row, one with a lost reply leaves its row, and nobody is asked |
| `IssuanceProgress.VaultStoreFails` | poc/2fa-vault/internal/policy/ledger.go:992-1035 | the same for the vault signature |
| `IssuanceProgress.CompletionStore` | poc/2fa-vault/internal/policy/ledger.go:992-1035 | the same for the completion, which also survives a cancelled caller |
| `PsbtGuard.IndexOriginalSig` | poc/2fa-vault/internal/provider/psbtguard.go:212-228 | the first equal original, or -1 |
| `PsbtGuard.ExtractVerifiedSignerSig` | poc/2fa-vault/internal/provider/psbtguard.go:133-186 | the single valid new signature of the expected key, or the error |
| `PsbtGuard.TakenSignature` | poc/2fa-vault/internal/provider/psbtguard.go:133-186 | the taken signature came with the response, has the expected key, leaf, type and length, and was verified over the submitted transaction |
| `PsbtGuard.HonestResponse` | poc/2fa-vault/internal/provider/psbtguard.go:133-186 | a response with the submitted signatures in any order and one more valid one is always accepted |
| `PsbtGuard.SignExactStage` | poc/2fa-vault/internal/provider/psbtguard.go:31-63 | a copy of the stored packet with that signature appended; only one valid signature of the key is new |
| `PsbtGuard.StageAddsOne` | poc/2fa-vault/internal/provider/psbtguard.go:31-63 | whatever the signer returns, the new text, if readable, is the stored packet with one valid signature of the key added and nothing else changed |
| `PsbtGuard.VerifyExactRoutineSignatures` | poc/2fa-vault/internal/provider/psbtguard.go:65-105 | passes exactly one valid signature for each of the distinct keys and no other |
| `PsbtGuard.ExactRoutineMeans` | poc/2fa-vault/internal/provider/psbtguard.go:65-105 | acceptance over packet and library alone: each signature is of the default type, over the leaf, verified under its key, and the keys are the given ones |
| `Authorizing.VaultCallback` | poc/2fa-vault/internal/provider/service.go:1271-1285 | the private stage, which adds one valid signature of the vault key |
| `Authorizing.ArkadeCallback` | poc/2fa-vault/internal/provider/service.go:1286-1318 | the public stage with its checks before and after: from exactly two routine signatures to exactly three |
| `Authorizing.ArkadeAnswerDelta` | poc/2fa-vault/internal/provider/service.go:1286-1318 | an answer adds one arkade signature to a packet with exactly two routine signatures, giving exactly three |
| `Authorizing.CompletedIsExact` | poc/2fa-vault/internal/provider/service.go:1268-1319 | in every run of authorizations a completed row is the request with exactly two more signatures, valid for the vault and the arkade key over its own transaction |
| `Authorizing.CompletedVerifies` | poc/2fa-vault/internal/provider/service.go:1268-1319 | in every run each of the three keys has a signature in a completed packet that verifies over the request's own transaction, the phone's included |
| `Authorizing.HonestVault` | poc/2fa-vault/internal/provider/service.go:1271-1285 | a stored request gets the vault signature of an honest signer |
| `Authorizing.HonestArkade` | poc/2fa-vault/internal/provider/service.go:1286-1318 | a stage with exactly the phone's and the vault's signatures gets the arkade signature and then passes the check of all three |
| `Authorizing.SignaturesCoverKeys` | poc/2fa-vault/internal/provider/psbtguard.go:65-105 | every one of the keys has its signature |
| `Authorizing.Authorize` | poc/2fa-vault/internal/provider/service.go:1242-1320 | a signed reply is an exact completion of the submitted packet, with a signature of each of the three keys that verifies over its transaction |
| `WebCodec.ReadUvarintAt` | poc/2fa-vault/web/psbtcheck.js:807-818 | the loop reads the uvarint at an offset |
| `WebCodec.WriteUvarintLoop` | poc/2fa-vault/web/psbtcheck.js:820-829 | the loop writes the uvarint |
| `WebCodec.ReadCompactSizeAt` | poc/2fa-vault/web/psbtcheck.js:780-796 | reads the compact size at an offset |
| `WebCodec.ReadTxItems` | poc/2fa-vault/web/psbtcheck.js:753-769 | reads a counted list of items to the end of the buffer |
| `WebCodec.ParseEmulatorPacket` | poc/2fa-vault/web/psbtcheck.js:654-676 | reads the one entry, or fails |
| `WebCodec.ParseExtensionPackets` | poc/2fa-vault/web/psbtcheck.js:629-652 | reads the packets of an extension, or fails |
| `WebCodec.ReadWrittenItems` | poc/2fa-vault/web/psbtcheck.js:753-778 | reading undoes writing for stacks of items |
| `WebCodec.ParseEncodedEntry` | poc/2fa-vault/web/psbtcheck.js:629-829 | parsing undoes encoding for entries, with items or without |
| `WebCodec.ParseCanonicalPacket` | poc/2fa-vault/web/psbtcheck.js:499-524 | the checks in order |
| `WebCodec.CanonicalIsEncoding` | poc/2fa-vault/web/psbtcheck.js:499-524 | a script is accepted as an entry exactly when it is that entry's encoding and the entry has the required shape |
| `WebCodec.OneScriptPerEntry` | poc/2fa-vault/web/psbtcheck.js:499-524 | no two accepted scripts denote the same entry |
| `WebCodec.OverlongPushAccepted` | poc/2fa-vault/web/psbtcheck.js:719-742 | the raw reader accepts a longer push of the same packets |
| `WebCodec.OverlongLengthAccepted` | poc/2fa-vault/web/psbtcheck.js:780-796 | the raw reader accepts a longer form of a length |
| `WebMasks.MaskEmulatorWitness` | poc/2fa-vault/web/psbtcheck.js:575-593 | the masked script, the script itself, or an error |
| `WebMasks.MasksAgree` | poc/2fa-vault/web/psbtcheck.js:575-593 | where neither side refuses, the browser hashes the same bytes for an extension as the signature message |
| `Assets.FreshIsUnique` | pkg/arkade/asset_opcodes.go:612-629 | a fresh issuance shares its id with no other group |
| `Assets.CountIsLength` | pkg/arkade/asset_opcodes.go:304-325 | the count is the length of the list of entries at the index |
| `Assets.EntryAtIsNth` | pkg/arkade/asset_opcodes.go:329-372 | succeeds exactly below the count, with the t-th entry of the group-major list |
| `Assets.LookUpIsFirst` | pkg/arkade/asset_opcodes.go:378-420 | returns the first entry of the list with the id |
| `Assets.FindGroupIsFirst` | pkg/arkade/asset_opcodes.go:103-129 | returns the first group with the id |
| `Assets.FreshIsFound` | pkg/arkade/asset_opcodes.go:103-129 | the id of a fresh issuance finds its own position |
| `Assets.CountOpcode` | pkg/arkade/asset_opcodes.go:423-444 | the nested loops push that count, for inputs and outputs |
| `Assets.AtOpcode` | pkg/arkade/asset_opcodes.go:450-493 | the nested loops push that entry or fail |
| `Assets.SearchAt` | pkg/arkade/asset_opcodes.go:329-372 | the search through groups and slots |
| `Assets.LookUpOpcode` | pkg/arkade/asset_opcodes.go:501-543 | pushes the amount and 1, or 0 and 0 |
| `Assets.FindOpcode` | pkg/arkade/asset_opcodes.go:103-129 | pushes the position and 1, or 0 and 0 |
| `AssetLaws.MatchingSlots` | pkg/arkade/asset_opcodes.go:305-543 | the entries of a group at an index are its slots there, each once, in order |
| `AssetLaws.Counting` | pkg/arkade/asset_opcodes.go:305-543 | COUNT leaves the number of entries |
| `AssetLaws.Indexing` | pkg/arkade/asset_opcodes.go:305-543 | AT leaves transaction, group and amount of the entry at a position, or fails exactly past the last |
| `AssetLaws.LookingUp` | pkg/arkade/asset_opcodes.go:305-543 | LOOKUP leaves the amount of the first entry of the asset and a one, or two zeros |
| `AssetLaws.Finding` | pkg/arkade/asset_opcodes.go:103-129 | FIND leaves the position of the first group of the asset and a one, or two zeros |
| `Assets.PopAssetID` | pkg/arkade/asset_opcodes.go:635-658 | a 32-byte id and an index in range, or the error |
| `Checkpoints.IndexCheckpoints` | internal/application/tx.go:205-238 | succeeds exactly when ids and spends are distinct and every input has its checkpoint; the map is the index by id |
| `Checkpoints.EveryCheckpointSpent` | internal/application/tx.go:205-238 | then every checkpoint is spent by an input: a bijection |
| `Checkpoints.ValidateCheckpoint` | internal/application/tx.go:240-286 | passes exactly checkpoints that pass on the spent output's value to the input |
| `Checkpoints.AcceptedCheckpoint` | internal/application/tx.go:240-286 | an accepted checkpoint pays on all it takes in its first output; its second is the worthless anchor; both inputs carry the leaf |
| `Checkpoints.CheckpointAccepted` | internal/application/tx.go:240-286 | and nothing else is asked |
| `Checkpoints.ValueConserved` | internal/application/tx.go:205-286 | with the index that was returned, the signed inputs are worth what their checkpoints spend, each of these was submitted and none counts twice |

## Left out

- Signature opcodes over the script's own digest (CHECKSIG, CHECKSIGADD, CHECKMULTISIG and their VERIFY forms), curve
  arithmetic and tweak checks, hash midstates, Merkle branches, MODEXP, lock-time opcodes, TXID, the packets of other
  inputs and the hashes of their arkade scripts and witnesses: members of `Other`, an arbitrary function of both stacks.
- Engines.ExecuteScript: for scripts that are not witness programs, run in a tapscript context. It does not model the
  refusal of an input witness by the engine, nor the checks made before the run: every input has a previous output in
  the money range, extension and emulator packet parse, and the script and its stack are an entry of the packet.
- VaultRun.RunAuthorization: for inputs without a signature script, as segregated witness inputs are.
- Engines.Engine.CheckErrorCondition: does not model the success that a key-path spend forces.
- The witness-program path of the engine (key path, control blocks, annex), debug callbacks and disassembly.
- Asset opcodes other than count, at, lookup and find: they read one field of one group; asset opcodes are not wired
  into `Effect`, which treats them as `Other`.
- The extension format of the Go side comes from a library that is not part of this model; it is taken to be the format
  the browser codec spells out. The byte form of an empty stack in the Go packet writer is a parameter.
- The engine's digest opcode takes the digest as a function of hash type and separator position; `HashesMessage` joins
  it to the modelled message for the vault's script only.
- Stacks.Stack.RotN: requires group sizes whose index arithmetic stays within int32; opcodes pass at most three.
- Stacks.Stack.SwapN: requires group sizes whose index arithmetic stays within int32; opcodes pass at most three.
- Stacks.Stack.OverN: requires group sizes whose index arithmetic stays within int32; opcodes pass at most three.
- NumberCodec.MakeScriptNum: for lengths up to eight; the stack passes four.
- NumberCodec.ScriptNumBytes: not stated for the least int64, which no opcode pushes.
- Two processes over one ledger database at the same time: the mutex of one process is modelled, and transactions of
  others would interleave.
- SQLite, schema checks, migrations, credentials and envelopes; PSBT, transaction and base64 libraries (their round trip
  is assumed by `RoundTrips`); HTTP, RPC, configuration and retry plumbing.
- Authorizing.Authorize: starts once the request is verified and classified, with both signers configured. The callbacks
  reach the ledger as the functions that `VaultCallback` and `ArkadeCallback` are proved to compute.
- The verification of the WebAuthn assertion and of the phone's signature before a request reaches the ledger.
- Finalizing with the server, the finalizer role and script resolution in SubmitTx.
- The error texts: each error is one constructor, and several texts of one check may share it.
