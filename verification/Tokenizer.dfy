/** The script tokenizer: an object that walks the bytes, and the token list a
    script denotes. */
module Tokenizers {
  import opened Common
  import opened ScriptErrors

  const OP_DATA_1: byte := 0x01
  const OP_DATA_75: byte := 0x4b
  const OP_PUSHDATA1: byte := 0x4c
  const OP_PUSHDATA2: byte := 0x4d
  const OP_PUSHDATA4: byte := 0x4e

  datatype Token = Token(op: byte, data: Bytes)

  /** The length column of the opcode table. */
  function OpLength(op: byte): int {
    if OP_DATA_1 <= op <= OP_DATA_75 then op as int + 1
    else if op == OP_PUSHDATA1 then -1
    else if op == OP_PUSHDATA2 then -2
    else if op == OP_PUSHDATA4 then -4
    else 1
  }

  /** The first token of a nonempty script, with the bytes it occupies. */
  function FirstToken(s: Bytes): (r: Result<(Token, nat), ErrorCode>)
    requires s != []
    ensures r.Ok? ==> 0 < r.value.1 <= |s|
  {
    var length := OpLength(s[0]);
    if length >= 1 then
      if |s| < length then Err(MalformedPush) else Ok((Token(s[0], s[1..length]), length))
    else if |s| - 1 < -length then Err(MalformedPush)
    else
      var dataLen := LeNat(s[1..1 - length]);
      if dataLen >= 0x8000_0000 || dataLen > |s| - 1 + length then Err(MalformedPush)
      else Ok((Token(s[0], s[1 - length..1 - length + dataLen]), 1 - length + dataLen))
  }

  /** The whole token list of a script, or the error that stops it. */
  function Tokenize(s: Bytes): Result<seq<Token>, ErrorCode> {
    if s == [] then Ok([])
    else
      var first :- FirstToken(s);
      var rest :- Tokenize(s[first.1..]);
      Ok([first.0] + rest)
  }

  /** A token that some bytes denote. */
  predicate WellFormed(t: Token) {
    var length := OpLength(t.op);
    if length >= 1 then |t.data| == length - 1
    else |t.data| < if length == -1 then 0x100 else if length == -2 then 0x1_0000 else 0x8000_0000
  }

  function EncodeToken(t: Token): (r: Bytes)
    ensures r != []
  {
    var length := OpLength(t.op);
    [t.op] + (if length >= 1 then [] else LeBytes(|t.data|, -length)) + t.data
  }

  function EncodeTokens(ts: seq<Token>): Bytes {
    if ts == [] then [] else EncodeToken(ts[0]) + EncodeTokens(ts[1..])
  }

  lemma FirstTokenOfEncoded(t: Token, rest: Bytes)
    requires WellFormed(t)
    ensures FirstToken(EncodeToken(t) + rest) == Ok((t, |EncodeToken(t)|))
  {
    var s := EncodeToken(t) + rest;
    var length := OpLength(t.op);
    if length >= 1 {
      assert s[1..length] == t.data;
    } else {
      WidthBounds();
      var width := -length;
      LeNatOfLeBytes(|t.data|, width);
      var prefix := LeBytes(|t.data|, width);
      hide LeNat, LeBytes;
      assert s == [t.op] + prefix + t.data + rest;
      assert s[1..1 + width] == prefix;
      assert s[1 + width..1 + width + |t.data|] == t.data;
    }
  }

  /** Any list of well-formed tokens parses back to itself. */
  lemma {:induction false} TokenizeEncoded(ts: seq<Token>)
    requires forall t :: t in ts ==> WellFormed(t)
    ensures Tokenize(EncodeTokens(ts)) == Ok(ts)
  {
    if ts != [] {
      FirstTokenOfEncoded(ts[0], EncodeTokens(ts[1..]));
      TokenizeEncoded(ts[1..]);
      var s := EncodeTokens(ts);
      assert s[|EncodeToken(ts[0])|..] == EncodeTokens(ts[1..]);
      assert ts == [ts[0]] + ts[1..];
    }
  }

  lemma FirstTokenBytes(s: Bytes)
    requires s != [] && FirstToken(s).Ok?
    ensures WellFormed(FirstToken(s).value.0)
    ensures EncodeToken(FirstToken(s).value.0) == s[..FirstToken(s).value.1]
  {
    var (t, n) := FirstToken(s).value;
    var length := OpLength(t.op);
    if length < 1 {
      var width := -length;
      WidthBounds();
      LeNatBound(s[1..1 + width]);
      LeBytesOfLeNat(s[1..1 + width]);
      assert s[..n] == [s[0]] + s[1..1 + width] + s[1 + width..n];
    } else {
      assert s[..n] == [s[0]] + s[1..length];
    }
  }

  /** The tokens of a script that parses are well formed and partition its bytes. */
  lemma {:induction false} EncodeTokenized(s: Bytes)
    requires Tokenize(s).Ok?
    ensures EncodeTokens(Tokenize(s).value) == s
    ensures forall t :: t in Tokenize(s).value ==> WellFormed(t)
  {
    if s != [] {
      FirstTokenBytes(s);
      var (t, n) := FirstToken(s).value;
      EncodeTokenized(s[n..]);
      assert s == s[..n] + s[n..];
    }
  }

  class ScriptTokenizer {
    const script: Bytes
    var offset: nat
    var opcodePos: int
    var op: byte
    var data: Bytes
    var err: Option<ErrorCode>

    ghost predicate Valid()
      reads this
    {
      offset <= |script|
    }

    /** The bytes still to be parsed. */
    ghost function Rest(): Bytes
      requires Valid()
      reads this
    {
      script[offset..]
    }

    constructor (version: nat, s: Bytes)
      ensures Valid() && script == s && offset == 0 && opcodePos == -1
      ensures err == if version != 0 then Some(UnsupportedScriptVersion) else None
    {
      script := s;
      offset := 0;
      opcodePos := -1;
      op := 0;
      data := [];
      err := if version != 0 then Some(UnsupportedScriptVersion) else None;
    }

    predicate Done()
      reads this
    {
      err.Some? || offset >= |script|
    }

    /** Parses the token at the offset, if there is one. */
    method Next() returns (more: bool)
      requires Valid()
      modifies this
      ensures Valid()
      ensures old(Done()) ==> !more && offset == old(offset) && err == old(err) && opcodePos == old(opcodePos)
      ensures !old(Done()) ==>
                var first := FirstToken(old(Rest()));
                && opcodePos == old(opcodePos) + 1
                && (more <==> first.Ok?)
                && (more ==> op == first.value.0.op && data == first.value.0.data
                             && offset == old(offset) + first.value.1 && err == None)
                && (!more ==> err == Some(first.error) && offset == old(offset))
    {
      if Done() {
        return false;
      }
      opcodePos := opcodePos + 1;
      var length := OpLength(script[offset]);
      if length == 1 {
        op := script[offset];
        offset := offset + 1;
        data := [];
        return true;
      } else if length > 1 {
        var s := script[offset..];
        if |s| < length {
          err := Some(MalformedPush);
          return false;
        }
        op := s[0];
        offset := offset + length;
        data := s[1..length];
        return true;
      } else {
        var s := script[offset + 1..];
        if |s| < -length {
          err := Some(MalformedPush);
          return false;
        }
        assert s[..-length] == script[offset..][1..1 - length];
        var raw: int := LeNat(s[..-length]);
        // a 32-bit length with its top bit set is negative as an int32
        var dataLen: int := if raw >= 0x8000_0000 then raw - 0x1_0000_0000 else raw;
        LeNatBound(s[..-length]);
        WidthBounds();
        s := s[-length..];
        if dataLen > |s| || dataLen < 0 {
          err := Some(MalformedPush);
          return false;
        }
        op := script[offset];
        offset := offset + 1 - length + dataLen;
        data := s[..dataLen];
        assert s[..dataLen] == script[old(offset)..][1 - length..1 - length + dataLen];
        return true;
      }
    }
  }

  /** checkScriptParses: the walk reaches the end exactly when the script is a
      token list. */
  method CheckScriptParses(version: nat, script: Bytes) returns (err: Option<ErrorCode>)
    ensures version != 0 ==> err == Some(UnsupportedScriptVersion)
    ensures version == 0 ==> (err == None <==> Tokenize(script).Ok?)
    ensures version == 0 && err.Some? ==> Tokenize(script) == Err(err.value)
  {
    hide FirstToken, LeNat;
    var tokenizer := new ScriptTokenizer(version, script);
    assert script[0..] == script;
    var more := tokenizer.Next();
    ghost var start := 0;
    while more
      invariant tokenizer.Valid() && fresh(tokenizer) && tokenizer.script == script
      invariant version != 0 ==> !more && tokenizer.err == Some(UnsupportedScriptVersion)
      invariant start <= |script|
      invariant version == 0 ==> (Tokenize(script).Ok? <==> Tokenize(script[start..]).Ok?)
      invariant version == 0 && Tokenize(script).Err? ==> Tokenize(script) == Tokenize(script[start..])
      invariant version == 0 && script[start..] == [] ==> !more && tokenizer.err == None
      invariant version == 0 && script[start..] != [] ==>
                  var first := FirstToken(script[start..]);
                  && (more <==> first.Ok?)
                  && (more ==> tokenizer.offset == start + first.value.1 && tokenizer.err == None)
                  && (!more ==> tokenizer.err == Some(first.error))
      decreases |script| - start
    {
      var s := script[start..];
      var n := FirstToken(s).value.1;
      assert s[n..] == script[start + n..];
      start := start + n;
      more := tokenizer.Next();
    }
    err := tokenizer.err;
  }
}
