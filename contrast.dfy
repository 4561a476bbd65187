/**
 * The two orchestrators side by side.  The line pipeline (`ParserPipeline.parse`)
 * and the argument classifier of auto mode (`parse_auto`) both infer a company
 * from the email, but against different webmail tables: the shared 26-entry
 * table and a local table of eight.  An address at googlemail.com therefore
 * yields a company in auto mode only.
 */
module Orchestrators {
  import opened Wrappers
  import opened Text
  import opened Constants
  import opened Base
  import opened Pipeline
  import opened Cli

  /**
   * Detectors under which every token is an email address and the name
   * detector finds the empty pair.
   */
  const EmailOnly: Detectors := Detectors(
    s => Match(s), s => NoMatch, s => NoMatch, s => NoMatch, s => Match(("", "")))

  const Address: string := "x@googlemail.com"

  /** Under `EmailOnly` a single non-blank line becomes the email entry and nothing else. */
  lemma SweepOneLine(line: string)
    requires !AllSpace(line)
    ensures Sweep(EmailOnly, [line]) == map["email" := ParseResult(line, ParsedConfidence, line)]
  {
    assert [line][..0] == [];
    assert Strip(line) != [];
    assert EmailOnly.email(line) == Match(line);
    assert Run(EmailOnly, Parsers[0].kind, line) == Match(Text(line));
    assert LineStep(EmailOnly, map[], line, 0) == map["email" := ParsedEntry(line, line)];
    assert SweepFrom(EmailOnly, map[], []) == map[];
    assert LineResult(EmailOnly, map[], line) == map["email" := ParsedEntry(line, line)];
  }

  /** Under `EmailOnly`, auto mode takes the single argument as the email and consumes it. */
  lemma AutoOneArgument(arg: string)
    requires arg != []
    ensures AutoFields(EmailOnly, [arg]) == Done(InferCompany(Initial.(email := Some(arg))))
  {
    assert [arg][..0] == [];
    var p := Pass(Initial, {});
    var q := Pass(Initial.(email := Some(arg)), {arg});
    assert EmailOnly.email(arg) == Match(arg);
    assert EmailOnly.name(arg) == Match(("", ""));
    assert NameStep(EmailOnly, q, arg, false) == Done(q);
    assert !Truthy(Initial.email) && !Truthy(Initial.firstName);
    assert Hit(EmailOnly.email(arg));
    assert p.consumed + {arg} == {arg};
    assert FirstStep(EmailOnly, p, arg) == Done(q);
    assert FirstPassFrom(EmailOnly, p, []) == Done(p);
    assert FirstPass(EmailOnly, [arg]) == Done(q);
    assert SecondPass({arg}, q.fields, [arg]) == q.fields;
  }

  lemma AddressDomain()
    ensures '@' in Address && AutoEmailDomain(Address) == "googlemail.com"
  {
    GooglemailDomain();
  }

  lemma AddressNotAutoWebmail()
    ensures "googlemail.com" !in AutoWebmail
  {
  }

  lemma GooglemailLabel()
    ensures Title(Split("googlemail.com", ".")[0]) == "Googlemail"
  {
    var domain := "googlemail.com";
    SplitAtChar(domain, '.', 10);
    assert Split(domain, ".")[0] == "googlemail" by { assert domain[..10] == "googlemail"; }
    GooglemailTitle(Split(domain, ".")[0]);
  }

  lemma GooglemailTitle(word: string)
    requires word == "googlemail"
    ensures Title(word) == "Googlemail"
  {
    var rest := word[1..];
    assert rest == "ooglemail";
    TitleAfterCased(rest);
    assert Title(word) == [TitleChar(word[0], false)] + TitleFrom(rest, true);
  }

  /** The line pipeline finds the email and no company: googlemail.com is in its table. */
  lemma PipelineGooglemail()
    ensures "company" !in Infer(Sweep(EmailOnly, [Address]))
  {
    assert Address[0] == 'x';
    SweepOneLine(Address);
    GooglemailNoCompany();
  }

  /** Auto mode infers "Googlemail": googlemail.com is not in its table. */
  lemma AutoGooglemail()
    ensures AutoFields(EmailOnly, [Address]).Done?
      && AutoFields(EmailOnly, [Address]).value.company == Some("Googlemail")
  {
    var f := Initial.(email := Some(Address));
    AutoOneArgument(Address);
    AddressDomain();
    AddressNotAutoWebmail();
    assert AutoInferable(f);
    GooglemailLabel();
    assert InferCompany(f).company == Some(Title(Split("googlemail.com", ".")[0]));
  }

  /**
   * With the same detectors and the same single input "x@googlemail.com", the
   * line pipeline infers no company while auto mode infers "Googlemail".
   */
  lemma WebmailTablesDiffer()
    ensures "company" !in Infer(Sweep(EmailOnly, [Address]))
    ensures AutoFields(EmailOnly, [Address]).Done?
      && AutoFields(EmailOnly, [Address]).value.company == Some("Googlemail")
  {
    PipelineGooglemail();
    AutoGooglemail();
  }
}
