/**
 The `parser` object of cmd/protogen-tesla/parser.go: a token slice and a
 position. Every method is proved to return what the function of the same name
 in `ProtoParser` says and to stop where it says, at or before the EOF token.
*/
module ProtoParserObject {
  import opened Wrappers
  import opened Strconv
  import opened ProtoLexer
  import opened P = ProtoParser

  /** `errAt`: the offending token, for its line and column, and the complaint. */
  datatype ParseError = ParseError(at: Token, what: Complaint)

  function LexSeq(ts: seq<Token>): (ls: seq<Lex>)
    ensures |ls| == |ts|
  {
    seq(|ts|, k requires 0 <= k < |ts| => ts[k].lex)
  }

  class Parser {
    const tokens: seq<Token>
    var pos: nat

    /** The token kinds and values from `pos` on. */
    ghost var rest: seq<Lex>

    ghost predicate Valid()
      reads this
    {
      && pos < |tokens|
      && |rest| == |tokens| - pos
      && Stream(rest)
      && forall k :: 0 <= k < |rest| ==> rest[k] == tokens[pos + k].lex
    }

    /** The result `r` of a method, with the position it left, is `p`. */
    ghost predicate Agrees<T>(r: Result<T, ParseError>, p: Parsed<T>)
      reads this
      requires Valid()
    {
      match p
      case Done(v, left) => r == Ok(v) && rest == left
      case Bad(what, left) => 1 <= left <= |tokens| && r == Err(ParseError(tokens[|tokens| - left], what))
    }

    constructor (tokens: seq<Token>)
      requires Stream(LexSeq(tokens))
      ensures Valid() && this.tokens == tokens && rest == LexSeq(tokens)
    {
      this.tokens := tokens;
      this.pos := 0;
      this.rest := LexSeq(tokens);
    }

    method Next() returns (t: Token)
      requires Valid()
      modifies this
      ensures Valid() && t == old(tokens[pos]) && rest == P.Next(old(rest))
    {
      t := tokens[pos];
      if t.lex.kind != EOF {
        pos := pos + 1;
        rest := rest[1..];
      }
    }

    method ExpectPunct(s: string) returns (r: Result<(), ParseError>)
      requires Valid()
      modifies this
      ensures Valid() && Agrees(r, P.ExpectPunct(old(rest), s))
    {
      var t := Next();
      if t.lex.kind != Punct || t.lex.value != s {
        return Err(ParseError(t, WantPunct(s)));
      }
      return Ok(());
    }

    method ExpectIdent() returns (r: Result<string, ParseError>)
      requires Valid()
      modifies this
      ensures Valid() && Agrees(r, P.ExpectIdent(old(rest)))
    {
      var t := Next();
      if t.lex.kind != Ident {
        return Err(ParseError(t, WantIdent));
      }
      return Ok(t.lex.value);
    }

    method ExpectNumber() returns (r: Result<int, ParseError>)
      requires Valid()
      modifies this
      ensures Valid() && Agrees(r, P.ExpectNumber(old(rest)))
    {
      var t := Next();
      if t.lex.kind != Number {
        return Err(ParseError(t, WantNumber));
      }
      var n := ParseInt32(t.lex.value);
      if n.None? {
        return Err(ParseError(t, BadNumber));
      }
      return Ok(n.value);
    }

    method SkipStatement()
      requires Valid()
      modifies this
      ensures Valid() && rest == P.SkipStatement(old(rest), 0)
    {
      var depth := 0;
      while true
        invariant Valid()
        invariant P.SkipStatement(rest, depth) == P.SkipStatement(old(rest), 0)
        decreases |rest|
      {
        var t := Next();
        if t.lex.kind == EOF {
          return;
        }
        if t.lex.kind == Punct {
          match t.lex.value
          case "{" => depth := depth + 1;
          case "(" => depth := depth + 1;
          case "[" => depth := depth + 1;
          case "}" => depth := depth - 1;
          case ")" => depth := depth - 1;
          case "]" => depth := depth - 1;
          case ";" =>
            if depth == 0 {
              return;
            }
          case _ =>
        }
      }
    }

    method SkipBracketGroup()
      requires Valid()
      modifies this
      ensures Valid() && rest == P.SkipBrackets(old(rest), 0)
    {
      var depth := 0;
      while true
        invariant Valid()
        invariant P.SkipBrackets(rest, depth) == P.SkipBrackets(old(rest), 0)
        decreases |rest|
      {
        var t := Next();
        if t.lex.kind == EOF {
          return;
        }
        if t.lex.kind == Punct {
          if t.lex.value == "[" {
            depth := depth + 1;
          } else if t.lex.value == "]" {
            depth := depth - 1;
            if depth == 0 {
              return;
            }
          }
        }
      }
    }

    method SkipBraceGroup()
      requires Valid()
      modifies this
      ensures Valid() && rest == P.SkipBraces(old(rest), 1)
    {
      var depth := 1;
      while depth > 0
        invariant Valid() && depth >= 0
        invariant P.SkipBraces(rest, depth) == P.SkipBraces(old(rest), 1)
        decreases |rest|
      {
        var t := Next();
        if t.lex.kind == EOF {
          return;
        }
        if t.lex.kind == Punct {
          if t.lex.value == "{" {
            depth := depth + 1;
          } else if t.lex.value == "}" {
            depth := depth - 1;
          }
        }
      }
    }

    /** The common end of enum values and fields: `=`, number, options, `;`. */
    method ParseTail() returns (r: Result<int, ParseError>)
      requires Valid()
      modifies this
      ensures Valid() && Agrees(r, P.ParseTail(old(rest)))
    {
      hide P.SkipBrackets, ParseInt32;
      var eq := ExpectPunct("=");
      if eq.Err? {
        return Err(eq.error);
      }
      r := ExpectNumber();
      if r.Err? {
        return;
      }
      if tokens[pos].lex.kind == Punct && tokens[pos].lex.value == "[" {
        SkipBracketGroup();
      }
      var semi := ExpectPunct(";");
      if semi.Err? {
        return Err(semi.error);
      }
    }

    method ParseField(repeated: bool) returns (r: Result<FieldDef, ParseError>)
      requires Valid()
      modifies this
      ensures Valid() && Agrees(r, P.ParseField(old(rest), repeated))
    {
      var typ := ExpectIdent();
      if typ.Err? {
        return Err(typ.error);
      }
      var name := ExpectIdent();
      if name.Err? {
        return Err(name.error);
      }
      var num := ParseTail();
      if num.Err? {
        return Err(num.error);
      }
      return Ok(FieldDef(name.value, typ.value, num.value, repeated));
    }

    /** One turn of the enum loop. */
    method EnumItem() returns (r: Result<seq<EnumValue>, ParseError>)
      requires Valid()
      modifies this
      ensures Valid() && Agrees(r, P.EnumItem(old(rest)))
    {
      hide P.ParseTail, P.SkipStatement;
      var t := tokens[pos];
      if t.lex.kind == Ident && t.lex.value == "option" {
        SkipStatement();
        return Ok([]);
      }
      if t.lex.kind == Ident && t.lex.value == "reserved" {
        SkipStatement();
        return Ok([]);
      }
      if t.lex.kind != Ident {
        return Err(ParseError(t, WantEnumValue));
      }
      t := Next();
      var num := ParseTail();
      if num.Err? {
        return Err(num.error);
      }
      return Ok([EnumValue(t.lex.value, num.value)]);
    }

    method ParseEnum() returns (r: Result<EnumDef, ParseError>)
      requires Valid()
      modifies this
      ensures Valid() && Agrees(r, P.ParseEnum(old(rest)))
    {
      hide P.EnumItem;
      var name := ExpectIdent();
      if name.Err? {
        return Err(name.error);
      }
      var open := ExpectPunct("{");
      if open.Err? {
        return Err(open.error);
      }
      var ed := EnumDef(name.value, []);
      while !(tokens[pos].lex.kind == Punct && tokens[pos].lex.value == "}")
        invariant Valid()
        invariant P.EnumBody(rest, ed) == P.ParseEnum(old(rest))
        decreases |rest|
      {
        var item := EnumItem();
        if item.Err? {
          return Err(item.error);
        }
        ed := ed.(values := ed.values + item.value);
      }
      var close := Next();
      return Ok(ed);
    }

    /** One turn of the oneof loop. */
    method OneofItem() returns (r: Result<seq<FieldDef>, ParseError>)
      requires Valid()
      modifies this
      ensures Valid() && Agrees(r, P.OneofItem(old(rest)))
    {
      hide P.ParseField, P.SkipStatement;
      var t := tokens[pos];
      if t.lex.kind == Ident && (t.lex.value == "option" || t.lex.value == "reserved") {
        SkipStatement();
        return Ok([]);
      }
      var fd := ParseField(false);
      if fd.Err? {
        return Err(fd.error);
      }
      return Ok([fd.value]);
    }

    method ParseOneof() returns (r: Result<OneofDef, ParseError>)
      requires Valid()
      modifies this
      ensures Valid() && Agrees(r, P.ParseOneof(old(rest)))
    {
      hide P.OneofItem;
      var name := ExpectIdent();
      if name.Err? {
        return Err(name.error);
      }
      var open := ExpectPunct("{");
      if open.Err? {
        return Err(open.error);
      }
      var od := OneofDef(name.value, []);
      while !(tokens[pos].lex.kind == Punct && tokens[pos].lex.value == "}")
        invariant Valid()
        invariant P.OneofBody(rest, od) == P.ParseOneof(old(rest))
        decreases |rest|
      {
        var item := OneofItem();
        if item.Err? {
          return Err(item.error);
        }
        od := od.(variants := od.variants + item.value);
      }
      var close := Next();
      return Ok(od);
    }

    /** A nested `message` or `enum` after its keyword. */
    method SkipNested() returns (r: Result<(), ParseError>)
      requires Valid()
      modifies this
      ensures Valid() && Agrees(r, P.SkipNested(old(rest)))
    {
      var name := ExpectIdent();
      if name.Err? {
        return Err(name.error);
      }
      r := ExpectPunct("{");
      if r.Err? {
        return;
      }
      SkipBraceGroup();
    }

    /** One turn of the message loop. */
    method MessageItem() returns (r: Result<Members, ParseError>)
      requires Valid()
      modifies this
      ensures Valid() && Agrees(r, P.MessageItem(old(rest)))
    {
      hide P.ParseField, P.ParseOneof, P.SkipNested, P.SkipStatement;
      var t := tokens[pos];
      var repeated := t.lex.kind == Ident && t.lex.value == "repeated";
      if repeated {
        t := Next();
      } else if t.lex.kind == Ident {
        if t.lex.value == "option" || t.lex.value == "reserved" {
          SkipStatement();
          return Ok(Members([], []));
        } else if t.lex.value == "oneof" {
          t := Next();
          var od := ParseOneof();
          if od.Err? {
            return Err(od.error);
          }
          return Ok(Members([], [od.value]));
        } else if t.lex.value == "message" || t.lex.value == "enum" {
          t := Next();
          var skipped := SkipNested();
          if skipped.Err? {
            return Err(skipped.error);
          }
          return Ok(Members([], []));
        }
      }
      var fd := ParseField(repeated);
      if fd.Err? {
        return Err(fd.error);
      }
      return Ok(Members([fd.value], []));
    }

    method ParseMessage() returns (r: Result<MessageDef, ParseError>)
      requires Valid()
      modifies this
      ensures Valid() && Agrees(r, P.ParseMessage(old(rest)))
    {
      hide P.MessageItem;
      var name := ExpectIdent();
      if name.Err? {
        return Err(name.error);
      }
      var open := ExpectPunct("{");
      if open.Err? {
        return Err(open.error);
      }
      var md := MessageDef(name.value, [], []);
      while !(tokens[pos].lex.kind == Punct && tokens[pos].lex.value == "}")
        invariant Valid()
        invariant P.MessageBody(rest, md) == P.ParseMessage(old(rest))
        decreases |rest|
      {
        var item := MessageItem();
        if item.Err? {
          return Err(item.error);
        }
        md := AddMembers(md, item.value);
      }
      var close := Next();
      return Ok(md);
    }

    /** One turn of the file loop. */
    method TopItem() returns (r: Result<Decls, ParseError>)
      requires Valid()
      modifies this
      ensures Valid() && Agrees(r, P.TopItem(old(rest)))
    {
      hide P.ParseEnum, P.ParseMessage, P.SkipStatement;
      var t := tokens[pos];
      if t.lex.kind != Ident {
        return Err(ParseError(t, WantTopLevel));
      }
      if t.lex.value == "syntax" || t.lex.value == "package" || t.lex.value == "import" || t.lex.value == "option" {
        SkipStatement();
        return Ok(Decls([], []));
      } else if t.lex.value == "enum" {
        t := Next();
        var ed := ParseEnum();
        if ed.Err? {
          return Err(ed.error);
        }
        return Ok(Decls([ed.value], []));
      } else if t.lex.value == "message" {
        t := Next();
        var md := ParseMessage();
        if md.Err? {
          return Err(md.error);
        }
        return Ok(Decls([], [md.value]));
      }
      return Err(ParseError(t, UnknownTopLevel));
    }

    method ParseFile() returns (r: Result<ProtoFile, ParseError>)
      requires Valid()
      modifies this
      ensures Valid() && Agrees(r, P.ParseFile(old(rest)))
    {
      hide P.TopItem;
      var pf := ProtoFile("", [], []);
      while tokens[pos].lex.kind != EOF
        invariant Valid()
        invariant P.FileBody(rest, pf) == P.ParseFile(old(rest))
        decreases |rest|
      {
        var item := TopItem();
        if item.Err? {
          return Err(item.error);
        }
        pf := AddDecls(pf, item.value);
      }
      return Ok(pf);
    }
  }
}
