/**
 * `ParserPipeline`: the priority-ordered sweep that offers each non-blank line
 * to the five detectors, keeps the first match, and afterwards infers a company
 * from a non-webmail email domain.
 *
 * The result dictionary is a `map<string, ParseResult>`; dictionary insertion
 * order is not modelled.
 */
module Pipeline {
  import opened Wrappers
  import opened Text
  import opened Constants
  import opened Base

  // ---------------------------------------------------------------------------
  // The parser table

  datatype ParserKind = EmailParser | WebsiteParser | TitleParser | PhoneParser | NameParser

  /** One row of the table: the detector, the result key it fills, its priority. */
  datatype ParserEntry = ParserEntry(kind: ParserKind, field: string, priority: nat)

  const Parsers: seq<ParserEntry> := [
    ParserEntry(EmailParser, "email", 100),
    ParserEntry(WebsiteParser, "websites", 90),
    ParserEntry(TitleParser, "job_title", 70),
    ParserEntry(PhoneParser, "phone", 60),
    ParserEntry(NameParser, "name", 50)
  ]

  /**
   * The table is already in strictly descending priority, so sorting it by
   * priority, highest first, leaves it as written: the detectors are always
   * tried email, websites, job_title, phone, name.
   */
  lemma ParsersByPriority()
    ensures forall i, j :: 0 <= i < j < |Parsers| ==> Parsers[i].priority > Parsers[j].priority
    ensures forall i, j :: 0 <= i < j < |Parsers| ==> Parsers[i].field != Parsers[j].field
  {
  }

  /** What a detector found: the text of a field, or the (first, last) pair of the name detector. */
  datatype Found = Text(text: string) | Pair(first: string, last: string)

  /** Calling the detector of `kind` on `line`. */
  function Run(d: Detectors, kind: ParserKind, line: string): Detection<Found>
  {
    match kind
    case EmailParser => Lift(d.email(line))
    case WebsiteParser => Lift(d.website(line))
    case TitleParser => Lift(d.title(line))
    case PhoneParser => Lift(d.phone(line))
    case NameParser =>
      match d.name(line)
      case NoMatch => NoMatch
      case Fault => Fault
      case Match(p) => Match(Pair(p.0, p.1))
  }

  function Lift(r: Detection<string>): Detection<Found>
  {
    match r
    case NoMatch => NoMatch
    case Fault => Fault
    case Match(v) => Match(Text(v))
  }

  /** A directly parsed entry: confidence 0.95, consumed text the whole line. */
  function ParsedEntry(value: string, line: string): ParseResult
  {
    ParseResult(value, ParsedConfidence, line, Parsed)
  }

  /**
   * Recording a match for `field`.  A name pair is stored under "first_name" and
   * "last_name", and only when one of the two is non-empty; the key "name"
   * itself is never stored.
   */
  function Store(results: map<string, ParseResult>, field: string, found: Found, line: string): map<string, ParseResult>
  {
    match found
    case Pair(first, last) =>
      if first != [] || last != [] then
        results["first_name" := ParsedEntry(first, line)]["last_name" := ParsedEntry(last, line)]
      else results
    case Text(v) => results[field := ParsedEntry(v, line)]
  }

  // ---------------------------------------------------------------------------
  // The specification of the sweep

  /** The detector of row `k` may fill its field and matches `line`. */
  predicate Fires(d: Detectors, results: map<string, ParseResult>, line: string, k: nat)
    requires k < |Parsers|
  {
    Parsers[k].field !in results && Run(d, Parsers[k].kind, line).Match?
  }

  /** Trying rows `j..` of the table on one line: a present key or a failed detector moves on. */
  function LineStep(d: Detectors, results: map<string, ParseResult>, line: string, j: nat): map<string, ParseResult>
    requires j <= |Parsers|
    decreases |Parsers| - j
  {
    if j == |Parsers| then results
    else if Parsers[j].field in results then LineStep(d, results, line, j + 1)
    else match Run(d, Parsers[j].kind, line)
      case Match(found) => Store(results, Parsers[j].field, found, line)
      case _ => LineStep(d, results, line, j + 1)
  }

  /** What one line does to the results; a blank line does nothing. */
  function LineResult(d: Detectors, results: map<string, ParseResult>, line: string): map<string, ParseResult>
  {
    if line == [] || Strip(line) == [] then results else LineStep(d, results, line, 0)
  }

  /** The results after offering `lines`, in order, starting from `results`. */
  function SweepFrom(d: Detectors, results: map<string, ParseResult>, lines: seq<string>): map<string, ParseResult>
  {
    if lines == [] then results
    else LineResult(d, SweepFrom(d, results, lines[..|lines| - 1]), lines[|lines| - 1])
  }

  /** The results of the line sweep of `parse`, before inference. */
  function Sweep(d: Detectors, lines: seq<string>): map<string, ParseResult>
  {
    SweepFrom(d, map[], lines)
  }

  // ---------------------------------------------------------------------------
  // Inference: `_apply_inference`

  /** The text between the first and the second '@' of an address containing one, lower-cased. */
  function EmailDomain(email: string): (domain: string)
    requires '@' in email
  {
    ContainsChar(email, '@');
    Lower(Split(email, "@")[1])
  }

  /** The company name read off a domain: its first dot-separated label, title-cased. */
  function CompanyOfDomain(domain: string): (company: string)
    ensures |company| == |Split(domain, ".")[0]|
    ensures '.' !in company
  {
    var first := Split(domain, ".")[0];
    ContainsChar(first, '.');
    var company := Title(first);
    TitleFromSpec(first, false);
    forall i | 0 <= i < |company| ensures company[i] != '.' {
      assert first[i] in first;
      var b := if i == 0 then false else IsCased(first[i - 1]);
      assert company[i] == TitleChar(first[i], b);
      if IsCased(first[i]) {
        assert IsCased(TitleChar(first[i], b));
      }
    }
    company
  }

  /** The condition under which `_apply_inference` adds a company. */
  predicate CompanyInferable(results: map<string, ParseResult>)
  {
    "company" !in results && "email" in results && '@' in results["email"].value
    && EmailDomain(results["email"].value) !in WebmailDomains
  }

  /**
   * `_apply_inference`: a company is added exactly when none is present and the
   * email's domain is not a webmail domain; nothing else changes.
   */
  function Infer(results: map<string, ParseResult>): (r: map<string, ParseResult>)
    ensures CompanyInferable(results) ==>
      var domain := EmailDomain(results["email"].value);
      r == results["company" := ParseResult(CompanyOfDomain(domain), InferredConfidence, domain, Inferred)]
    ensures !CompanyInferable(results) ==> r == results
  {
    if "company" !in results && "email" in results then
      var email := results["email"].value;
      if email != [] && '@' in email then
        var domain := EmailDomain(email);
        if domain !in WebmailDomains then
          results["company" := ParseResult(CompanyOfDomain(domain), InferredConfidence, domain, Inferred)]
        else results
      else results
    else results
  }

  /** `to_dict`: the same keys, each mapped to the value of its entry. */
  function ToDict(results: map<string, ParseResult>): (r: map<string, string>)
    ensures r.Keys == results.Keys
    ensures forall k :: k in r ==> r[k] == results[k].value
  {
    map k | k in results :: results[k].value
  }

  // ---------------------------------------------------------------------------
  // `parse`

  method Parse(d: Detectors, lines: seq<string>) returns (results: map<string, ParseResult>)
    ensures results == Infer(Sweep(d, lines))
  {
    results := map[];
    for i := 0 to |lines|
      invariant results == Sweep(d, lines[..i])
    {
      assert lines[..i + 1][..i] == lines[..i];
      var line := lines[i];
      if line == [] || Strip(line) == [] {
        continue;
      }
      results := OfferLine(d, results, line);
    }
    assert lines[..|lines|] == lines;
    results := Infer(results);
  }

  /** The inner loop of `parse`: try the rows in order and stop at the first match. */
  method OfferLine(d: Detectors, start: map<string, ParseResult>, line: string) returns (results: map<string, ParseResult>)
    ensures results == LineStep(d, start, line, 0)
  {
    results := start;
    var j := 0;
    while j < |Parsers|
      invariant 0 <= j <= |Parsers|
      invariant results == start
      invariant LineStep(d, start, line, j) == LineStep(d, start, line, 0)
    {
      var entry := Parsers[j];
      if entry.field in results {
        j := j + 1;
        continue;
      }
      var result := Run(d, entry.kind, line);
      if result.Match? {
        results := Store(results, entry.field, result.value, line);
        return;
      }
      j := j + 1;
    }
  }

  // ---------------------------------------------------------------------------
  // Properties of the sweep

  /**
   * On one line, the first row whose key is absent and whose detector matches
   * decides the outcome alone; when there is none the results are unchanged.
   */
  lemma {:induction false} FirstFiringRowWins(d: Detectors, results: map<string, ParseResult>, line: string, j: nat)
    requires j <= |Parsers|
    ensures (forall k :: j <= k < |Parsers| ==> !Fires(d, results, line, k)) ==>
      LineStep(d, results, line, j) == results
    ensures forall k ::
      (j <= k < |Parsers| && Fires(d, results, line, k) && forall i :: j <= i < k ==> !Fires(d, results, line, i)) ==>
      LineStep(d, results, line, j) == Store(results, Parsers[k].field, Run(d, Parsers[k].kind, line).value, line)
    decreases |Parsers| - j
  {
    if j < |Parsers| {
      FirstFiringRowWins(d, results, line, j + 1);
      if Fires(d, results, line, j) {
        assert LineStep(d, results, line, j) == Store(results, Parsers[j].field, Run(d, Parsers[j].kind, line).value, line);
      } else {
        assert LineStep(d, results, line, j) == LineStep(d, results, line, j + 1);
      }
    }
  }

  /** The keys a match on row `k` can write. */
  function Written(k: nat): set<string>
    requires k < |Parsers|
  {
    if Parsers[k].kind == NameParser then {"first_name", "last_name"} else {Parsers[k].field}
  }

  /** A line's outcome is either no change or the store of one row that fires. */
  lemma {:induction false} LineStepWrites(d: Detectors, results: map<string, ParseResult>, line: string, j: nat)
    requires j <= |Parsers|
    ensures LineStep(d, results, line, j) == results
      || exists k :: j <= k < |Parsers| && Fires(d, results, line, k)
           && LineStep(d, results, line, j) == Store(results, Parsers[k].field, Run(d, Parsers[k].kind, line).value, line)
    decreases |Parsers| - j
  {
    if j < |Parsers| {
      LineStepWrites(d, results, line, j + 1);
    }
  }

  /** A store for row `k` touches only the keys row `k` writes. */
  lemma StoreWrites(d: Detectors, results: map<string, ParseResult>, line: string, k: nat, key: string)
    requires k < |Parsers| && Fires(d, results, line, k) && key !in Written(k)
    ensures var r := Store(results, Parsers[k].field, Run(d, Parsers[k].kind, line).value, line);
      (key in r <==> key in results) && (key in results ==> r[key] == results[key])
  {
  }

  /**
   * Each line yields at most one result: every key outside what one row writes
   * keeps its entry.
   */
  lemma OneRowPerLine(d: Detectors, results: map<string, ParseResult>, line: string)
    ensures LineResult(d, results, line) == results
      || exists k :: 0 <= k < |Parsers| && forall key :: key !in Written(k) ==>
           (key in LineResult(d, results, line) <==> key in results)
           && (key in results ==> LineResult(d, results, line)[key] == results[key])
  {
    if !(line == [] || Strip(line) == []) {
      LineStepWrites(d, results, line, 0);
      var r := LineResult(d, results, line);
      if r != results {
        var k :| 0 <= k < |Parsers| && Fires(d, results, line, k)
          && r == Store(results, Parsers[k].field, Run(d, Parsers[k].kind, line).value, line);
        forall key | key !in Written(k)
          ensures (key in r <==> key in results) && (key in results ==> r[key] == results[key])
        {
          StoreWrites(d, results, line, k, key);
        }
      }
    }
  }

  /** Lines are processed in order: sweeping `a + b` is sweeping `b` after `a`. */
  lemma {:induction false} SweepFromAppend(d: Detectors, results: map<string, ParseResult>, a: seq<string>, b: seq<string>)
    ensures SweepFrom(d, results, a + b) == SweepFrom(d, SweepFrom(d, results, a), b)
    decreases |b|
  {
    if b == [] {
      assert a + b == a;
    } else {
      assert (a + b)[..|a + b| - 1] == a + b[..|b| - 1];
      assert (a + b)[|a + b| - 1] == b[|b| - 1];
      SweepFromAppend(d, results, a, b[..|b| - 1]);
    }
  }

  /** The two keys a name match writes; every other key is written at most once. */
  predicate IsNameKey(key: string)
  {
    key == "first_name" || key == "last_name"
  }

  /** A line never removes a key, and never changes an entry other than the name pair. */
  lemma LineResultKeeps(d: Detectors, results: map<string, ParseResult>, line: string)
    ensures results.Keys <= LineResult(d, results, line).Keys
    ensures forall key :: key in results && !IsNameKey(key) ==> LineResult(d, results, line)[key] == results[key]
  {
    if !(line == [] || Strip(line) == []) {
      LineStepWrites(d, results, line, 0);
    }
  }

  lemma {:induction false} SweepFromKeeps(d: Detectors, results: map<string, ParseResult>, lines: seq<string>)
    ensures results.Keys <= SweepFrom(d, results, lines).Keys
    ensures forall key :: key in results && !IsNameKey(key) ==> SweepFrom(d, results, lines)[key] == results[key]
  {
    if lines != [] {
      var before := SweepFrom(d, results, lines[..|lines| - 1]);
      SweepFromKeeps(d, results, lines[..|lines| - 1]);
      LineResultKeeps(d, before, lines[|lines| - 1]);
    }
  }

  /**
   * Once present, `email`, `websites`, `job_title` and `phone` keep their
   * entry whatever lines follow.
   */
  lemma StickyFields(d: Detectors, a: seq<string>, b: seq<string>, key: string)
    requires key in Sweep(d, a) && !IsNameKey(key)
    ensures key in Sweep(d, a + b) && Sweep(d, a + b)[key] == Sweep(d, a)[key]
  {
    SweepFromAppend(d, map[], a, b);
    SweepFromKeeps(d, Sweep(d, a), b);
  }

  /**
   * The name pair is never protected by a present key: a later line on which
   * no higher row fires and the name detector finds a non-empty pair replaces
   * both names, whatever earlier lines set.
   */
  lemma NamesOverwritable(d: Detectors, a: seq<string>, line: string, first: string, last: string)
    requires Strip(line) != []
    requires forall k :: 0 <= k < 4 ==> !Fires(d, Sweep(d, a), line, k)
    requires d.name(line) == Match((first, last)) && (first != [] || last != [])
    ensures var r := Sweep(d, a + [line]);
      "first_name" in r && r["first_name"] == ParsedEntry(first, line)
      && "last_name" in r && r["last_name"] == ParsedEntry(last, line)
  {
    var before := Sweep(d, a);
    NameKeyNeverStored(d, a);
    NameRowStores(d, before, line, first, last);
    assert (a + [line])[..|a + [line]| - 1] == a;
    assert Sweep(d, a + [line]) == LineResult(d, before, line);
  }

  /** On a line where only the name row fires with a non-empty pair, both names are written. */
  lemma NameRowStores(d: Detectors, results: map<string, ParseResult>, line: string, first: string, last: string)
    requires Strip(line) != [] && "name" !in results
    requires forall k :: 0 <= k < 4 ==> !Fires(d, results, line, k)
    requires d.name(line) == Match((first, last)) && (first != [] || last != [])
    ensures LineResult(d, results, line) ==
      results["first_name" := ParsedEntry(first, line)]["last_name" := ParsedEntry(last, line)]
  {
    assert Parsers[4].field == "name" && Parsers[4].kind == NameParser;
    assert Run(d, NameParser, line) == Match(Pair(first, last));
    assert Fires(d, results, line, 4);
    FirstFiringRowWins(d, results, line, 0);
  }

  // ---------------------------------------------------------------------------
  // Faults are swallowed

  /** A detector outcome with its exception turned into "no match". */
  function NoFault<T>(r: Detection<T>): (t: Detection<T>)
    ensures !t.Fault?
    ensures r.Fault? ==> t == NoMatch
    ensures !r.Fault? ==> t == r
  {
    if r.Fault? then NoMatch else r
  }

  /** The same detectors, except that each returns no match where it would raise. */
  function Tame(d: Detectors): Detectors
  {
    Detectors(
      s => NoFault(d.email(s)), s => NoFault(d.website(s)), s => NoFault(d.title(s)),
      s => NoFault(d.phone(s)), s => NoFault(d.name(s)))
  }

  lemma RunTame(d: Detectors, kind: ParserKind, line: string)
    ensures Run(Tame(d), kind, line) == NoFault(Run(d, kind, line))
  {
  }

  lemma {:induction false} LineStepTame(d: Detectors, results: map<string, ParseResult>, line: string, j: nat)
    requires j <= |Parsers|
    ensures LineStep(Tame(d), results, line, j) == LineStep(d, results, line, j)
    decreases |Parsers| - j
  {
    if j < |Parsers| {
      RunTame(d, Parsers[j].kind, line);
      LineStepTame(d, results, line, j + 1);
    }
  }

  lemma {:induction false} SweepFromTame(d: Detectors, results: map<string, ParseResult>, lines: seq<string>)
    ensures SweepFrom(Tame(d), results, lines) == SweepFrom(d, results, lines)
  {
    if lines != [] {
      SweepFromTame(d, results, lines[..|lines| - 1]);
      var before := SweepFrom(d, results, lines[..|lines| - 1]);
      var line := lines[|lines| - 1];
      if !(line == [] || Strip(line) == []) {
        LineStepTame(d, before, line, 0);
      }
    }
  }

  /** A detector that raises is treated exactly as one that finds nothing. */
  lemma FaultIsNoMatch(d: Detectors, lines: seq<string>)
    ensures Sweep(Tame(d), lines) == Sweep(d, lines)
  {
    SweepFromTame(d, map[], lines);
  }

  // ---------------------------------------------------------------------------
  // Blank lines

  /** The lines with a non-whitespace character, in order. */
  function NonBlank(lines: seq<string>): (r: seq<string>)
    ensures |r| <= |lines|
    ensures forall k :: 0 <= k < |r| ==> Strip(r[k]) != [] && r[k] in lines
    ensures forall x :: x in lines && Strip(x) != [] ==> x in r
  {
    if lines == [] then []
    else
      var init := NonBlank(lines[..|lines| - 1]);
      var last := lines[|lines| - 1];
      assert forall x :: x in lines[..|lines| - 1] ==> x in lines;
      if Strip(last) == [] then init else init + [last]
  }

  /** `NonBlank` keeps the order of the lines: it filters each part of a split list on its own. */
  lemma {:induction false} NonBlankAppend(a: seq<string>, b: seq<string>)
    decreases |b|
    ensures NonBlank(a + b) == NonBlank(a) + NonBlank(b)
  {
    if b == [] {
      assert a + b == a;
    } else {
      var init := b[..|b| - 1];
      NonBlankAppend(a, init);
      assert (a + b)[..|a + b| - 1] == a + init;
      assert (a + b)[|a + b| - 1] == b[|b| - 1];
    }
  }

  /** A single line is kept exactly when it has a non-whitespace character. */
  lemma NonBlankSingle(x: string)
    ensures NonBlank([x]) == if Strip(x) == [] then [] else [x]
  {
    assert [x][..0] == [];
  }

  /** Empty or whitespace-only lines contribute nothing. */
  lemma {:induction false} BlankLinesIgnored(d: Detectors, lines: seq<string>)
    ensures Sweep(d, lines) == Sweep(d, NonBlank(lines))
  {
    if lines != [] {
      var init := lines[..|lines| - 1];
      var last := lines[|lines| - 1];
      BlankLinesIgnored(d, init);
      if Strip(last) != [] {
        var nb := NonBlank(lines);
        assert nb[..|nb| - 1] == NonBlank(init);
      }
    }
  }
  /** A blank line anywhere among the lines can be dropped without changing the sweep. */
  lemma BlankLineDropped(d: Detectors, a: seq<string>, x: string, b: seq<string>)
    requires Strip(x) == []
    ensures Sweep(d, a + [x] + b) == Sweep(d, a + b)
  {
    BlankLinesIgnored(d, a + [x] + b);
    BlankLinesIgnored(d, a + b);
    NonBlankAppend(a + [x], b);
    NonBlankAppend(a, [x]);
    NonBlankSingle(x);
    NonBlankAppend(a, b);
    assert NonBlank(a) + [] == NonBlank(a);
  }


  // ---------------------------------------------------------------------------
  // Shape of the entries

  /** The keys the sweep can write. */
  const SweepKeys: set<string> := {"email", "websites", "job_title", "phone", "first_name", "last_name"}

  /**
   * Every entry is directly parsed (0.95, source parsed) from one of `lines`,
   * only sweep keys occur, and the name pair is present together, read off one line.
   */
  predicate SweptFrom(results: map<string, ParseResult>, lines: seq<string>)
  {
    (forall key :: key in results ==> key in SweepKeys)
    && (forall key :: key in results ==>
          results[key].confidence == ParsedConfidence && results[key].source == Parsed
          && results[key].consumedText in lines)
    && ("first_name" in results <==> "last_name" in results)
    && ("first_name" in results ==> results["first_name"].consumedText == results["last_name"].consumedText)
  }

  lemma SweptFromLonger(results: map<string, ParseResult>, lines: seq<string>, line: string)
    requires SweptFrom(results, lines)
    ensures SweptFrom(results, lines + [line])
  {
    forall key | key in results ensures results[key].consumedText in lines + [line] {
      var i :| 0 <= i < |lines| && lines[i] == results[key].consumedText;
      assert (lines + [line])[i] == lines[i];
    }
  }

  lemma LineResultShape(d: Detectors, results: map<string, ParseResult>, lines: seq<string>, line: string)
    requires SweptFrom(results, lines)
    ensures SweptFrom(LineResult(d, results, line), lines + [line])
  {
    SweptFromLonger(results, lines, line);
    if !(line == [] || Strip(line) == []) {
      LineStepWrites(d, results, line, 0);
      var r := LineResult(d, results, line);
      if r != results {
        var k :| 0 <= k < |Parsers| && Fires(d, results, line, k)
          && r == Store(results, Parsers[k].field, Run(d, Parsers[k].kind, line).value, line);
        assert line == (lines + [line])[|lines|];
        StoreShape(d, results, lines + [line], line, k);
      }
    }
  }

  /** Storing a row's match for a line among `lines` keeps the shape. */
  lemma StoreShape(d: Detectors, results: map<string, ParseResult>, lines: seq<string>, line: string, k: nat)
    requires SweptFrom(results, lines) && line in lines
    requires k < |Parsers| && Fires(d, results, line, k)
    ensures SweptFrom(Store(results, Parsers[k].field, Run(d, Parsers[k].kind, line).value, line), lines)
  {
  }

  lemma {:induction false} SweepShape(d: Detectors, lines: seq<string>)
    ensures SweptFrom(Sweep(d, lines), lines)
  {
    if lines != [] {
      var init := lines[..|lines| - 1];
      SweepShape(d, init);
      LineResultShape(d, Sweep(d, init), init, lines[|lines| - 1]);
      assert init + [lines[|lines| - 1]] == lines;
    }
  }

  /** The key "name" is never stored, so the name detector is never skipped for it. */
  lemma NameKeyNeverStored(d: Detectors, lines: seq<string>)
    ensures "name" !in Sweep(d, lines) && "company" !in Sweep(d, lines)
  {
    SweepShape(d, lines);
  }

  // ---------------------------------------------------------------------------
  // The result of `parse`

  /**
   * `company` comes only from inference: it is present exactly when the swept
   * email contains '@' and its domain is not a webmail domain, and then it is
   * the title-cased first label with confidence 0.6, source inferred, and the
   * domain as consumed text.  All other entries are the sweep's.
   */
  lemma ParseCompany(d: Detectors, lines: seq<string>)
    ensures var swept := Sweep(d, lines);
      var r := Infer(swept);
      ("company" in r <==>
         ("email" in swept && '@' in swept["email"].value && EmailDomain(swept["email"].value) !in WebmailDomains))
      && ("company" in r ==>
            var domain := EmailDomain(swept["email"].value);
            r["company"] == ParseResult(CompanyOfDomain(domain), InferredConfidence, domain, Inferred))
      && (forall key :: key in swept ==> key in r && r[key] == swept[key])
      && r.Keys <= swept.Keys + {"company"}
  {
    NameKeyNeverStored(d, lines);
  }

  /** "x@googlemail.com" yields no company: googlemail.com is a webmail domain here. */
  lemma GooglemailNoCompany()
    ensures "company" !in Infer(map["email" := ParseResult("x@googlemail.com", ParsedConfidence, "x@googlemail.com")])
  {
    var email := "x@googlemail.com";
    var results := map["email" := ParseResult(email, ParsedConfidence, email)];
    GooglemailDomain();
    WebmailDomainsMembers();
    assert !CompanyInferable(results);
  }

  lemma GooglemailDomain()
    ensures '@' in "x@googlemail.com" && EmailDomain("x@googlemail.com") == "googlemail.com"
  {
    var email := "x@googlemail.com";
    SplitAtChar(email, '@', 1);
    assert Split(email, "@")[1] == "googlemail.com" by { assert email[2..] == "googlemail.com"; }
    GooglemailLower();
  }

  lemma GooglemailLower()
    ensures Lower("googlemail.com") == "googlemail.com"
  {
  }

  lemma AcmeCorpDomain()
    ensures '@' in "Jane@Acme-Corp.com" && EmailDomain("Jane@Acme-Corp.com") == "acme-corp.com"
  {
    var email := "Jane@Acme-Corp.com";
    SplitAtChar(email, '@', 4);
    assert Split(email, "@")[1] == "Acme-Corp.com" by { assert email[5..] == "Acme-Corp.com"; }
    AcmeCorpLower();
  }

  lemma AcmeCorpLower()
    ensures Lower("Acme-Corp.com") == "acme-corp.com"
  {
  }

  lemma AcmeCorpName()
    ensures CompanyOfDomain("acme-corp.com") == "Acme-Corp"
  {
    var domain := "acme-corp.com";
    SplitAtChar(domain, '.', 9);
    assert Split(domain, ".")[0] == "acme-corp" by { assert domain[..9] == "acme-corp"; }
    AcmeCorpTitle();
  }

  lemma AcmeCorpTitle()
    ensures Title("acme-corp") == "Acme-Corp"
  {
  }

  lemma AcmeCorpNotWebmail()
    ensures "acme-corp.com" !in WebmailDomains
  {
    var domain := "acme-corp.com";
    assert domain !in Google && domain !in Microsoft && domain !in Yahoo && domain !in Apple;
    assert domain !in AolVerizon && domain !in PrivacyFocused && domain !in OtherProviders;
  }

  /** "Jane@Acme-Corp.com" yields the company "Acme-Corp", read off the lower-cased domain. */
  lemma AcmeCorpCompany()
    ensures var r := Infer(map["email" := ParseResult("Jane@Acme-Corp.com", ParsedConfidence, "Jane@Acme-Corp.com")]);
      "company" in r && r["company"] == ParseResult("Acme-Corp", InferredConfidence, "acme-corp.com", Inferred)
  {
    var email := "Jane@Acme-Corp.com";
    var results := map["email" := ParseResult(email, ParsedConfidence, email)];
    AcmeCorpDomain();
    AcmeCorpName();
    AcmeCorpNotWebmail();
    assert CompanyInferable(results);
  }
}
