/**
 The reader (json_reader.cpp): a cursor over the document, a stack of the values being filled in, the
 list of errors and the depth counter, advanced in place. Each method is proved against the functions
 of the lexer and the parser modules.

 A stack entry is the content of the value it stands for; the entry is stored under its key in the
 value below it when it is popped.
 */
module JsonReader {
  import opened Bytes
  import opened JsonString
  import opened JsonValue
  import L = JsonLexer
  import P = JsonParser
  import opened JsonLexer
  import opened JsonParser

  class Reader {
    const features: Features
    const scan: bytes -> Option<Double>
    var doc: bytes
    var current: nat
    var errors: seq<Error>
    var nodes: seq<Value>
    var stackDepth: int

    ghost predicate Valid()
      reads this`current, this`doc
    {
      current <= |doc|
    }

    ghost function Source(): Source
      reads this`doc
    {
      P.Source(doc, features, scan)
    }

    constructor (features: Features, scan: bytes -> Option<Double>)
      ensures Valid() && this.features == features && this.scan == scan
      ensures errors == [] && nodes == []
    {
      this.features := features;
      this.scan := scan;
      doc, current, errors, nodes, stackDepth := [], 0, [], [], 0;
    }

    // ------------------------------------------------------------------------- Tokens

    method GetNextChar() returns (c: byte)
      requires Valid()
      modifies this`current
      ensures Valid()
      ensures c == CharAt(doc, old(current))
      ensures current == if old(current) == |doc| then old(current) else old(current) + 1
    {
      if current == |doc| {
        return NUL;
      }
      c := doc[current];
      current := current + 1;
    }

    method SkipSpaces()
      requires Valid()
      modifies this`current
      ensures Valid() && current == L.SkipSpaces(doc, old(current))
    {
      while current != |doc|
        invariant current <= |doc|
        invariant L.SkipSpaces(doc, old(current)) == L.SkipSpaces(doc, current)
        decreases |doc| - current
      {
        var c := doc[current];
        if c == SPACE || c == TAB || c == RETURN || c == LINE_FEED {
          current := current + 1;
        } else {
          break;
        }
      }
    }

    /** Compares backwards from the last character; the cursor moves only on a full match. */
    method Match(pattern: bytes) returns (ok: bool)
      requires Valid()
      modifies this`current
      ensures Valid() && ok == At(doc, old(current), pattern)
      ensures current == if ok then old(current) + |pattern| else old(current)
    {
      if |doc| - current < |pattern| {
        return false;
      }
      ghost var here := doc[current..current + |pattern|];
      var index := |pattern|;
      while index != 0
        invariant 0 <= index <= |pattern|
        invariant current == old(current)
        invariant here[index..] == pattern[index..]
        decreases index
      {
        index := index - 1;
        if doc[current + index] != pattern[index] {
          assert here[index] != pattern[index];
          return false;
        }
        assert here[index..] == [here[index]] + here[index + 1..];
        assert pattern[index..] == [pattern[index]] + pattern[index + 1..];
      }
      assert here == here[0..] && pattern == pattern[0..];
      current := current + |pattern|;
      ok := true;
    }

    method ReadCStyleComment() returns (ok: bool)
      requires Valid()
      modifies this`current
      ensures Valid() && (ok, current) == CStyleCommentEnd(doc, old(current))
    {
      while current != |doc|
        invariant current <= |doc|
        invariant CStyleCommentEnd(doc, old(current)) == CStyleCommentEnd(doc, current)
        decreases |doc| - current
      {
        var c := GetNextChar();
        if c == STAR && CharAt(doc, current) == SLASH {
          break;
        }
      }
      var last := GetNextChar();
      ok := last == SLASH;
    }

    method ReadCppStyleComment()
      requires Valid()
      modifies this`current
      ensures Valid() && current == CppStyleCommentEnd(doc, old(current))
    {
      while current != |doc|
        invariant current <= |doc|
        invariant CppStyleCommentEnd(doc, old(current)) == CppStyleCommentEnd(doc, current)
        decreases |doc| - current
      {
        var c := GetNextChar();
        if c == LINE_FEED {
          break;
        }
        if c == RETURN {
          if current != |doc| && doc[current] == LINE_FEED {
            c := GetNextChar();
          }
          break;
        }
      }
    }

    method ReadComment() returns (ok: bool)
      requires Valid()
      modifies this`current
      ensures Valid() && (ok, current) == CommentEnd(doc, old(current))
    {
      var c := GetNextChar();
      ok := false;
      if c == STAR {
        ok := ReadCStyleComment();
      } else if c == SLASH {
        ReadCppStyleComment();
        ok := true;
      }
    }

    static function After(doc: bytes, p: nat): nat {
      if p < |doc| then p + 1 else p
    }

    /** Moves the cursor to `p` and fetches the character there, moving `p` past it. */
    method Advance(p: nat) returns (c: byte, next: nat)
      requires p <= |doc|
      modifies this`current
      ensures current == p && c == CharAt(doc, p) && next == After(doc, p)
    {
      current := p;
      if current < |doc| {
        c, next := doc[p], p + 1;
      } else {
        c, next := NUL, p;
      }
    }

    /**
     Skips digits: the loop that appears three times in `readNumber`. It starts with the character
     under the cursor fetched, or with a digit standing for one already consumed.
     */
    method SkipDigits(first: byte, start: nat) returns (c: byte, p: nat)
      requires Valid()
      requires (IsDigit(first) && start == current) || (first == CharAt(doc, current) && start == After(doc, current))
      modifies this`current
      ensures Valid() && current == DigitsEnd(doc, old(current))
      ensures c == CharAt(doc, current) && p == After(doc, current)
    {
      c, p := first, start;
      while ZERO <= c <= NINE
        invariant Valid() && p <= |doc|
        invariant (IsDigit(c) && p == current) || (c == CharAt(doc, current) && p == After(doc, current))
        invariant DigitsEnd(doc, old(current)) == DigitsEnd(doc, current)
        decreases |doc| - p, if IsDigit(c) then 1 else 0
      {
        c, p := Advance(p);
      }
    }

    method ReadNumber()
      requires Valid()
      modifies this`current
      ensures Valid() && current == NumberEnd(doc, old(current))
    {
      assert IsDigit(ZERO);
      hide DigitsEnd, IsDigit, ExponentEnd;
      var c := ZERO;  // stands for the character already consumed
      var p := current;
      c, p := SkipDigits(c, p);
      if c == DOT {
        c, p := Advance(p);
        c, p := SkipDigits(c, p);
      }
      ReadExponent(c, p);
    }

    /** The end of `readNumber`, behind the fraction. */
    method ReadExponent(first: byte, start: nat)
      requires Valid() && first == CharAt(doc, current) && start == After(doc, current)
      modifies this`current
      ensures Valid() && current == ExponentEnd(doc, old(current))
    {
      hide DigitsEnd, IsDigit;
      var c, p := first, start;
      if c == 101 || c == 69 {
        c, p := Advance(p);
        if c == PLUS || c == MINUS {
          c, p := Advance(p);
        }
        c, p := SkipDigits(c, p);
      }
    }

    method ReadString() returns (ok: bool)
      requires Valid()
      modifies this`current
      ensures Valid() && (ok, current) == StringEnd(doc, old(current))
    {
      var c := NUL;
      while current != |doc|
        invariant current <= |doc|
        invariant StringEnd(doc, old(current)) == StringEnd(doc, current)
        invariant c != QUOTE
        decreases |doc| - current
      {
        c := GetNextChar();
        if c == BACKSLASH {
          var _ := GetNextChar();
        } else if c == QUOTE {
          break;
        }
      }
      ok := c == QUOTE;
    }

    method ReadToken() returns (token: Token)
      requires Valid()
      modifies this`current
      ensures Valid() && token == NextToken(doc, old(current)) && current == token.end
    {
      SkipSpaces();
      var start := current;
      var c := GetNextChar();
      var ok := true;
      var kind := EndOfStream;
      if PunctuationOf(c).Some? {
        kind := PunctuationOf(c).value;
      } else if c == QUOTE {
        kind := StringToken;
        ok := ReadString();
      } else if c == SLASH {
        kind := CommentToken;
        ok := ReadComment();
      } else if IsDigit(c) || c == MINUS {
        kind := NumberToken;
        ReadNumber();
      } else if c == TRUE_TEXT[0] {
        kind := TrueToken;
        ok := Match(TRUE_TEXT[1..]);
      } else if c == FALSE_TEXT[0] {
        kind := FalseToken;
        ok := Match(FALSE_TEXT[1..]);
      } else if c == NULL_TEXT[0] {
        kind := NullToken;
        ok := Match(NULL_TEXT[1..]);
      } else {
        ok := false;
      }
      token := Token(if ok then kind else ErrorToken, start, current);
    }

    /** `readToken` repeated while it yields a comment. */
    method ReadTokenPastComments() returns (token: Token)
      requires Valid()
      modifies this`current
      ensures Valid() && token == NextSkippingComments(doc, old(current)) && current == token.end
    {
      token := ReadToken();
      while token.kind == CommentToken
        invariant Valid() && current == token.end && token.end <= |doc|
        invariant NextSkippingComments(doc, old(current)) ==
                  if token.kind == CommentToken then NextSkippingComments(doc, current) else token
        decreases |doc| - current, token.kind == CommentToken
      {
        token := ReadToken();
      }
    }

    method SkipCommentTokens() returns (token: Token)
      requires Valid()
      modifies this`current
      ensures Valid() && token == FirstToken(Source(), old(current)) && current == token.end
    {
      if features.allowComments {
        token := ReadTokenPastComments();
      } else {
        token := ReadToken();
      }
    }

    // ------------------------------------------------------------------------- Errors

    method AddError(message: Message, token: Token, extra: Option<nat>) returns (ok: bool)
      modifies this`errors
      ensures !ok && errors == old(errors) + [Error(message, token, extra)]
    {
      errors := errors + [Error(message, token, extra)];
      ok := false;
    }

    method RecoverFromError(until: TokenType) returns (ok: bool)
      requires Valid()
      modifies this`current, this`errors
      ensures Valid() && !ok && current == RecoverTo(doc, old(current), until) && errors == old(errors)
    {
      var errorCount := |errors|;
      while true
        invariant Valid() && errors == old(errors)
        invariant RecoverTo(doc, old(current), until) == RecoverTo(doc, current, until)
        decreases |doc| - current
      {
        var skip := ReadToken();
        if skip.kind == until || skip.kind == EndOfStream {
          break;
        }
      }
      errors := errors[..errorCount];
      ok := false;
    }

    method AddErrorAndRecover(message: Message, token: Token, until: TokenType) returns (ok: bool)
      requires Valid()
      modifies this`current, this`errors
      ensures Valid() && !ok && current == RecoverTo(doc, old(current), until)
      ensures errors == old(errors) + [Error(message, token, None)]
    {
      ok := AddError(message, token, None);
      ok := RecoverFromError(until);
    }

    // ------------------------------------------------------------------------- Values

    /** The value being filled in: the top of the stack. */
    function Top(): Value
      requires |nodes| > 0
      reads this`nodes
    {
      nodes[|nodes| - 1]
    }

    method SetTop(v: Value)
      requires |nodes| > 0
      modifies this`nodes
      ensures nodes == old(nodes)[..|old(nodes)| - 1] + [v]
    {
      nodes := nodes[..|nodes| - 1] + [v];
    }

    /**
     The state agrees with the outcome `r` of a step that started with the given errors and nodes:
     only the top of the stack changed. Nothing is said about the state after an exception.
     */
    ghost predicate Reached(r: Outcome, thrown: bool, ok: bool, errors0: seq<Error>, nodes0: seq<Value>)
      requires |nodes0| > 0
      reads this
    {
      && thrown == r.Thrown?
      && (!thrown ==>
            && ok == r.ok && current == r.pos && errors == errors0 + r.errors && stackDepth == r.depth
            && nodes == nodes0[..|nodes0| - 1] + [r.value])
    }

    /** Stores a decoded value and its offsets in the current value. */
    method Fill(token: Token, data: Data)
      requires |nodes| > 0
      modifies this`nodes
      ensures nodes == old(nodes)[..|old(nodes)| - 1] + [Value(data, token.start, token.end)]
    {
      SetTop(Value(data, token.start, token.end));
    }

    method DecodeNumber(token: Token) returns (ok: bool)
      requires Valid() && |nodes| > 0 && token.kind == NumberToken && token.start < token.end == current
      modifies this`nodes, this`errors
      ensures Reached(ParseScalar(Source(), token, stackDepth, old(Top())), false, ok, old(errors), old(nodes))
    {
      var decoded := JsonNumber.DecodeNumber(doc[token.start..token.end]);
      if !decoded.UseDouble? {
        Fill(token, DecodedData(decoded));
        return true;
      }
      var value := scan(doc[token.start..token.end]);
      if value == None {
        ok := AddError(NotANumber, token, None);
        return;
      }
      Fill(token, Real(value.value));
      ok := true;
    }

    method DecodeString(token: Token) returns (ok: bool)
      requires Valid() && |nodes| > 0 && token.kind == StringToken && token.start + 2 <= token.end == current
      modifies this`nodes, this`errors
      ensures Reached(ParseScalar(Source(), token, stackDepth, old(Top())), false, ok, old(errors), old(nodes))
    {
      var text := JsonString.DecodeString(doc, token.start + 1, token.end - 1);
      if text.BadText? {
        ok := AddError(BadString(text.message), token, Some(text.at));
        return;
      }
      Fill(token, Str(Some(text.s)));
      ok := true;
    }

    static lemma ClosingBracket(doc: bytes, p: nat)
      requires p < |doc| && doc[p] == RIGHT_BRACKET
      ensures NextToken(doc, p) == Token(ArrayEnd, p, p + 1)
    {
    }

    /** `readValue`; `thrown` reports the exception for too deep nesting. */
    method ReadValue() returns (thrown: bool, ok: bool)
      requires Valid() && |nodes| > 0
      modifies this
      ensures Valid() && doc == old(doc)
      ensures Reached(ParseValue(old(Source()), old(current), old(stackDepth), old(Top())), thrown, ok, old(errors),
                      old(nodes))
      decreases |doc| - current, 0
    {
      hide ParseMembers, ParseArray, ParseScalar, FirstToken;
      thrown, ok := false, true;
      if stackDepth >= STACK_LIMIT {
        return true, false;
      }
      stackDepth := stackDepth + 1;
      var token := SkipCommentTokens();
      match token.kind {
        case ObjectBegin =>
          thrown, ok := ReadObject(token);
          if thrown {
            return;
          }
          SetTop(Top().(limit := current));
        case ArrayBegin =>
          thrown, ok := ReadArray(token);
          if thrown {
            return;
          }
          SetTop(Top().(limit := current));
        case _ =>
          ok := ReadScalar(token);
          return;
      }
      stackDepth := stackDepth - 1;
    }

    /**
     The other cases of `readValue`, with the depth counter already raised: it is lowered again except
     when no value stands here.
     */
    method ReadScalar(token: Token) returns (ok: bool)
      requires Valid() && |nodes| > 0 && token.kind != ObjectBegin && token.kind != ArrayBegin
      requires token.start <= token.end == current
      requires token.kind != EndOfStream ==> token.start < token.end
      requires token.kind == StringToken ==> token.start + 2 <= token.end
      modifies this
      ensures Valid() && doc == old(doc)
      ensures Reached(ParseScalar(old(Source()), token, old(stackDepth) - 1, old(Top())), false, ok, old(errors),
                      old(nodes))
    {
      hide DecodeText, NumberData;
      stackDepth := stackDepth - 1;
      ok := true;
      if token.kind == NumberToken {
        ok := DecodeNumber(token);
      } else if token.kind == StringToken {
        ok := DecodeString(token);
      } else if token.kind == TrueToken {
        Fill(token, Bool(true));
      } else if token.kind == FalseToken {
        Fill(token, Bool(false));
      } else if token.kind == NullToken {
        Fill(token, Null);
      } else {
        ok := RejectToken(token);
      }
    }

    /** No value begins with this token; the depth counter stays raised. */
    method RejectToken(token: Token) returns (ok: bool)
      requires |nodes| > 0
      modifies this`nodes, this`errors, this`stackDepth
      ensures !ok && errors == old(errors) + [Error(ValueExpected, token, None)] && stackDepth == old(stackDepth) + 1
      ensures nodes == old(nodes)[..|old(nodes)| - 1] + [old(Top()).(start := token.start, limit := token.end)]
    {
      SetTop(Top().(start := token.start, limit := token.end));
      ok := AddError(ValueExpected, token, None);
      stackDepth := stackDepth + 1;
    }

    method ReadObject(tokenStart: Token) returns (thrown: bool, ok: bool)
      requires Valid() && |nodes| > 0
      modifies this
      ensures Valid() && doc == old(doc)
      ensures Reached(ParseMembers(old(Source()), old(current), old(stackDepth),
                                   JsonValue.Value(Object(Nil), tokenStart.start, old(Top()).limit), []),
                      thrown, ok, old(errors), old(nodes))
      decreases |doc| - current, 2
    {
      hide ParseValue, JsonParser.MemberName, MemberFollow, RecoverTo, Set, Find;
      ghost var start, errors0, below := current, errors, nodes[..|nodes| - 1];
      SetTop(Top().(data := Object(Nil), start := tokenStart.start));
      var name: bytes := [];
      ghost var spec := ParseMembers(Source(), current, stackDepth, Top(), name);
      thrown := false;
      while true
        invariant Valid() && doc == old(doc) && start <= current
        invariant |nodes| > 0 && nodes == below + [Top()] && errors == errors0
        invariant spec == ParseMembers(Source(), current, stackDepth, Top(), name)
        decreases |doc| - current
      {
        var member;
        member, ok, name := ReadMemberName(name);
        if !member {
          return;
        }
        thrown, ok := ReadChild(Name(name));
        if thrown {
          return;
        }
        if !ok {
          ok := RecoverFromError(ObjectEnd);
          return;
        }
        var more;
        more, ok := ReadMemberSeparator();
        if !more {
          return;
        }
      }
    }

    /** The start of the loop of `readObject`: whether a member follows, and if not, whether that is fine. */
    method ReadMemberName(last: bytes) returns (member: bool, ok: bool, name: bytes)
      requires Valid()
      modifies this`current, this`errors
      ensures Valid()
      ensures
        match JsonParser.MemberName(Source(), old(current), last)
        case NoMember(pos) => !member && ok && current == pos && errors == old(errors)
        case Named(key, pos) => member && name == key && current == pos && errors == old(errors)
        case BadName(pos, e) => !member && !ok && current == pos && errors == old(errors) + [e]
    {
      hide NextToken, NextSkippingComments, RecoverTo, DecodeText;
      name := last;
      ghost var text := doc;
      var tokenName := ReadTokenPastComments();
      assert doc == text;
      if tokenName.kind == ObjectEnd && name == [] {  // empty object
        return false, true, name;
      }
      name := [];
      if tokenName.kind != StringToken {
        ok := AddErrorAndRecover(MemberNameExpected, tokenName, ObjectEnd);
        return false, ok, name;
      }
      ok, name := DecodeName(tokenName);
      assert doc == text;
      if !ok {
        return false, ok, name;
      }
      var colon := ReadToken();
      assert doc == text;
      if colon.kind != MemberSeparator {
        ok := AddErrorAndRecover(ColonExpected, colon, ObjectEnd);
        return false, ok, name;
      }
      return true, true, name;
    }

    /** A member name, or an error and recovery. */
    method DecodeName(token: Token) returns (ok: bool, name: bytes)
      requires Valid() && token.start + 2 <= token.end == current
      modifies this`current, this`errors
      ensures Valid()
      ensures
        match DecodeText(doc, token.start + 1, token.end - 1)
        case Text(key) => ok && name == key && current == old(current) && errors == old(errors)
        case BadText(m, at) =>
          && !ok && current == RecoverTo(doc, old(current), ObjectEnd)
          && errors == old(errors) + [Error(BadString(m), token, Some(at))]
    {
      hide DecodeText, RecoverTo, NextToken;
      var text := JsonString.DecodeString(doc, token.start + 1, token.end - 1);
      name := [];
      if text.BadText? {
        ok := AddError(BadString(text.message), token, Some(text.at));
        ok := RecoverFromError(ObjectEnd);
        return;
      }
      ok, name := true, text.s;
    }

    /** The end of the loop of `readObject`: whether it goes on, and if not, whether the object is complete. */
    method ReadMemberSeparator() returns (more: bool, ok: bool)
      requires Valid()
      modifies this`current, this`errors
      ensures Valid()
      ensures
        match MemberFollow(Source(), old(current))
        case Last(pos) => !more && ok && current == pos && errors == old(errors)
        case More(pos) => more && current == pos && errors == old(errors)
        case BadFollow(pos, e) => !more && !ok && current == pos && errors == old(errors) + [e]
    {
      var comma := ReadToken();
      if comma.kind != ObjectEnd && comma.kind != ArraySeparator && comma.kind != CommentToken {
        ok := AddErrorAndRecover(MemberSeparatorExpected, comma, ObjectEnd);
        return false, ok;
      }
      if comma.kind == CommentToken {
        comma := ReadTokenPastComments();
      }
      more, ok := comma.kind != ObjectEnd, true;
    }

    /** The end of the loop of `readArray`. */
    method ReadElementSeparator() returns (more: bool, ok: bool)
      requires Valid()
      modifies this`current, this`errors
      ensures Valid()
      ensures
        match ElementFollow(Source(), old(current))
        case Last(pos) => !more && ok && current == pos && errors == old(errors)
        case More(pos) => more && current == pos && errors == old(errors)
        case BadFollow(pos, e) => !more && !ok && current == pos && errors == old(errors) + [e]
    {
      var token := ReadTokenPastComments();
      if token.kind != ArraySeparator && token.kind != ArrayEnd {
        ok := AddErrorAndRecover(ElementSeparatorExpected, token, ArrayEnd);
        return false, ok;
      }
      more, ok := token.kind != ArrayEnd, true;
    }

    /** Reads the value under `key` of the current container: push, `readValue`, pop. */
    method ReadChild(key: Key) returns (thrown: bool, ok: bool)
      requires Valid() && |nodes| > 0
      modifies this
      ensures Valid() && doc == old(doc)
      ensures
        var r := ParseValue(old(Source()), old(current), old(stackDepth), Get(EntriesOf(old(Top())), key));
        Reached(if r.Thrown? then r else r.(value := SetChild(old(Top()), key, r.value)), thrown, ok, old(errors),
                old(nodes))
      decreases |doc| - current, 1
    {
      nodes := nodes + [Get(EntriesOf(Top()), key)];
      thrown, ok := ReadValue();
      if thrown {
        return;
      }
      var child := Top();
      nodes := nodes[..|nodes| - 1];
      SetTop(SetChild(Top(), key, child));
    }

    method ReadArray(tokenStart: Token) returns (thrown: bool, ok: bool)
      requires Valid() && |nodes| > 0
      modifies this
      ensures Valid() && doc == old(doc)
      ensures Reached(ParseArray(old(Source()), old(current), old(stackDepth),
                                 JsonValue.Value(Array(Nil), tokenStart.start, old(Top()).limit)),
                      thrown, ok, old(errors), old(nodes))
      decreases |doc| - current, 2
    {
      hide ParseValue, ElementFollow, RecoverTo, TokenAt, Set, Find;
      ghost var start, errors0, below := current, errors, nodes[..|nodes| - 1];
      SetTop(Top().(data := Array(Nil), start := tokenStart.start));
      ghost var spec := ParseArray(Source(), current, stackDepth, Top());
      thrown := false;
      SkipSpaces();
      if CharAt(doc, current) == RIGHT_BRACKET {  // empty array
        ClosingBracket(doc, current);
        var endArray := ReadToken();
        ok := true;
        return;
      }
      var index := 0;
      while true
        invariant Valid() && doc == old(doc) && start <= current && index >= 0
        invariant |nodes| > 0 && nodes == below + [Top()] && errors == errors0
        invariant spec == ParseElements(Source(), current, stackDepth, Top(), index)
        decreases |doc| - current
      {
        thrown, ok := ReadChild(Index(index));
        index := index + 1;
        if thrown {
          return;
        }
        if !ok {
          ok := RecoverFromError(ArrayEnd);
          return;
        }
        var more;
        more, ok := ReadElementSeparator();
        if !more {
          return;
        }
      }
    }

    /** `parse`: terminates on every document, and reports success exactly when no error was recorded. */
    method Parse(document: bytes, root: Value) returns (thrown: bool, ok: bool)
      modifies this
      ensures Valid() && doc == document
      ensures
        var r := ParseDocument(Source(), root);
        && thrown == r.Thrown?
        && (!thrown ==>
            ok == r.ok && current == r.pos && errors == r.errors && nodes == [r.value] &&
            stackDepth == r.depth)
      ensures !thrown ==> (ok <==> errors == [])
      ensures !thrown && ok ==> stackDepth == 0
    {
      doc := document;
      current := 0;
      errors := [];
      nodes := [root];
      stackDepth := 0;
      thrown, ok := ReadValue();
      if thrown {
        return;
      }
      var token := SkipCommentTokens();
      if features.strictRoot {
        if !Top().data.Array? && !Top().data.Object? {
          ok := AddError(RootNotContainer, Token(ErrorToken, 0, |doc|), None);
        }
      }
    }
  }
}
