/**
 What Postfix makes of the address of a RCPT TO command, said as a relation: the local part it denotes
 (tok822_parse.c, as internal/milter/milter.go describes it) and how that is logged (quote_822_local.c).
 */
module PostfixForm {
  import opened Strings
  import opened AddressForm

  // Between the quotation marks a backslash stands for the character after it, and a blank for a space.
  predicate Spells(body: string, content: string)
    decreases |body|
  {
    if body == "" then content == ""
    else if body[0] == '\\' then
      |body| > 1 && content != "" && content[0] == Blank(body[1]) && Spells(body[2..], content[1..])
    else
      body[0] != '"' && content != "" && content[0] == Blank(body[0]) && Spells(body[1..], content[1..])
  }

  ghost predicate Denotes(addr: string, content: string, domain: string) {
    '@' !in domain && domain != "" &&
    ((content != "" && (forall c | c in content :: AtomChar(c)) && addr == content + ("@" + domain))
     || exists body :: Spells(body, content) && addr == "\"" + body + "\"" + ("@" + domain))
  }

  // Quoted again with a backslash before quotation mark, backslash and carriage return, and before nothing else.
  predicate Escapes(body: string, content: string)
    decreases |content|
  {
    if content == "" then body == ""
    else if content[0] in {'"', '\\', '\r'} then
      |body| > 1 && body[0] == '\\' && body[1] == content[0] && Escapes(body[2..], content[1..])
    else
      body != "" && body[0] == content[0] && Escapes(body[1..], content[1..])
  }

  ghost predicate LogsAs(content: string, domain: string, line: string) {
    if IsDotString(content) then line == content + ("@" + domain)
    else exists body :: Escapes(body, content) && line == "\"" + body + "\"" + ("@" + domain)
  }

  lemma {:induction false} UnescapeSpells(body: string, content: string)
    requires Spells(body, content)
    ensures Unescape(body) == content
    decreases |body|
  {
    if body != "" {
      UnescapeSpells(if body[0] == '\\' then body[2..] else body[1..], content[1..]);
      assert content == [content[0]] + content[1..];
    }
  }

  lemma {:induction false} EscapeEscapes(body: string, content: string)
    requires Escapes(body, content)
    ensures body == Escape(content)
    decreases |content|
  {
    if content != "" {
      var rest := content[1..];
      assert content == [content[0]] + rest;
      EscapeCons(content[0], rest);
      if Escaped(content[0]) {
        EscapeEscapes(body[2..], rest);
        assert body == [body[0]] + [body[1]] + body[2..];
      } else {
        EscapeEscapes(body[1..], rest);
        assert body == [body[0]] + body[1..];
      }
    }
  }

  lemma UnquotesTo(quoted: string, content: string)
    requires (content != "" && (forall c | c in content :: AtomChar(c)) && quoted == content)
             || exists body :: Spells(body, content) && quoted == "\"" + body + "\""
    ensures Unquote(quoted) == content
  {
    if body :| Spells(body, content) && quoted == "\"" + body + "\"" {
      assert quoted[1..|quoted| - 1] == body;
      UnescapeSpells(body, content);
    } else {
      assert content[0] in content;
    }
  }

  lemma QuotesTo(content: string, domain: string, line: string)
    requires LogsAs(content, domain, line)
    ensures line == Quote(content) + ("@" + domain)
  {
    if !IsDotString(content) {
      var body :| Escapes(body, content) && line == "\"" + body + "\"" + ("@" + domain);
      EscapeEscapes(body, content);
    }
  }

  lemma PartsAt(quoted: string, domain: string)
    requires '@' !in domain
    ensures Parts(quoted + ("@" + domain)) == (quoted, "@" + domain)
  {
    var a := quoted + ("@" + domain);
    assert a[|quoted| + 1..] == domain && a[..|quoted|] == quoted && a[|quoted|..] == "@" + domain;
    LastIndexUnique(a, '@', |quoted|);
    hide LastIndexOf;
  }

  // The form the panel expects of a recipient is the one Postfix logs it in.
  lemma AsLoggedIsPostfixs(given: string, content: string, domain: string, line: string)
    requires Denotes(Clean(given), content, domain) && LogsAs(content, domain, line)
    ensures AsLogged(given) == line
  {
    var a := Clean(given);
    var quoted := a[..|a| - |"@" + domain|];
    SplitsAt(a, content, domain);
    UnquotesTo(quoted, content);
    QuotesTo(content, domain, line);
    PartsAt(quoted, domain);
    hide Clean, Unquote, Quote, Parts, Denotes, LogsAs, Spells;
  }

  lemma SplitsAt(a: string, content: string, domain: string)
    requires Denotes(a, content, domain)
    ensures '@' !in domain && |a| >= |"@" + domain|
    ensures var quoted := a[..|a| - |"@" + domain|];
            && a == quoted + ("@" + domain)
            && ((content != "" && (forall c | c in content :: AtomChar(c)) && quoted == content)
                || exists body :: Spells(body, content) && quoted == "\"" + body + "\"")
  {
    var rest := "@" + domain;
    if body :| Spells(body, content) && a == "\"" + body + "\"" + rest {
      assert a[..|a| - |rest|] == "\"" + body + "\"";
    } else {
      assert a[..|a| - |rest|] == content;
    }
  }
}
