/**
 * The command-line front end: choosing between positional, named and automatic
 * argument handling, the two-pass heuristic that sorts loose arguments into
 * contact fields (`parse_auto`), and the resolution of named options into
 * fields.
 *
 * Python truthiness is explicit here: a string value counts only when it is
 * present and non-empty.  An exception raised by a detector (or by unpacking
 * a name result that is `None`) ends `parse_auto` with `Raised`.
 */
module Cli {
  import opened Wrappers
  import opened Text
  import opened Base

  /** Python truthiness of an optional string. */
  predicate Truthy(o: Option<string>)
  {
    o.Some? && o.value != []
  }

  // ---------------------------------------------------------------------------
  // `detect_argument_mode`

  /** A docopt value: a switch, an option's text, a repeated argument, or `None`. */
  datatype ArgValue = Flag(on: bool) | Str(text: string) | Many(items: seq<string>) | Absent

  predicate IsTruthy(v: ArgValue)
  {
    match v
    case Flag(on) => on
    case Str(t) => t != []
    case Many(items) => items != []
    case Absent => false
  }

  datatype Mode = Positional | Named | Auto

  const UtilityFlags: set<string> := {"--auto", "--explicit", "--help", "--version", "--dry-run", "--paste", "--stdin"}

  /** `args.get(key)`: a missing key reads as `None`. */
  function Get(args: map<string, ArgValue>, key: string): ArgValue
  {
    if key in args then args[key] else Absent
  }

  /** A key that names a field option: it starts with "--" and is not a utility flag. */
  predicate IsNamedOption(key: string)
  {
    |key| >= 2 && key[..2] == "--" && key !in UtilityFlags
  }

  /** Some field option has a truthy value. */
  predicate AnyNamedOption(args: map<string, ArgValue>)
  {
    exists key :: key in args && IsNamedOption(key) && IsTruthy(args[key])
  }

  function DetectArgumentMode(args: map<string, ArgValue>): (m: Mode)
    ensures IsTruthy(Get(args, "--explicit")) ==> m == Positional
    ensures m == Named <==> !IsTruthy(Get(args, "--explicit")) && AnyNamedOption(args)
    ensures m == Auto <==> !IsTruthy(Get(args, "--explicit")) && !AnyNamedOption(args) && IsTruthy(Get(args, "TEXT"))
  {
    if IsTruthy(Get(args, "--explicit")) then Positional
    else if AnyNamedOption(args) then Named
    else if IsTruthy(Get(args, "TEXT")) then Auto
    else Positional
  }

  // ---------------------------------------------------------------------------
  // `parse_auto`: state

  /** The eight keys of `detected_fields`. */
  datatype Fields = Fields(
    firstName: Option<string>, lastName: Option<string>, email: Option<string>,
    phone: Option<string>, jobTitle: Option<string>, company: Option<string>,
    websites: seq<string>, note: Option<string>)

  const Initial: Fields := Fields(None, None, None, None, None, None, [], None)

  /** The fields so far and the texts of the arguments consumed so far. */
  datatype Pass = Pass(fields: Fields, consumed: set<string>)

  /** A detector answer that counts: a match with a non-empty value. */
  predicate Hit(r: Detection<string>)
  {
    r.Match? && r.value != []
  }

  // ---------------------------------------------------------------------------
  // The first pass, one argument

  /** Step 5 (and the name part of step 1): the name detector; `None` cannot be unpacked. */
  function NameStep(d: Detectors, p: Pass, arg: string, consume: bool): Outcome<Pass>
  {
    match d.name(arg)
    case Match(pair) =>
      if pair.0 != [] || pair.1 != [] then
        Done(Pass(p.fields.(firstName := Some(pair.0), lastName := Some(pair.1)),
                  if consume then p.consumed + {arg} else p.consumed))
      else Done(p)
    case _ => Raised
  }

  /** Steps 2 to 5, tried when the argument was not taken as the email. */
  function AfterEmail(d: Detectors, p: Pass, arg: string): Outcome<Pass>
  {
    var f := p.fields;
    var w := d.website(arg);
    if w.Fault? then Raised
    else if Hit(w) then Done(Pass(f.(websites := f.websites + [w.value]), p.consumed + {arg}))
    else
      var t := if Truthy(f.jobTitle) then NoMatch else d.title(arg);
      if t.Fault? then Raised
      else if Hit(t) then Done(Pass(f.(jobTitle := Some(t.value)), p.consumed + {arg}))
      else
        var ph := if Truthy(f.phone) then NoMatch else d.phone(arg);
        if ph.Fault? then Raised
        else if Hit(ph) then Done(Pass(f.(phone := Some(ph.value)), p.consumed + {arg}))
        else if Truthy(f.firstName) then Done(p)
        else NameStep(d, p, arg, true)
  }

  /** One iteration of the first loop. */
  function FirstStep(d: Detectors, p: Pass, arg: string): Outcome<Pass>
  {
    var e := if Truthy(p.fields.email) then NoMatch else d.email(arg);
    if e.Fault? then Raised
    else if Hit(e) then
      var q := Pass(p.fields.(email := Some(e.value)), p.consumed + {arg});
      if Truthy(p.fields.firstName) then Done(q) else NameStep(d, q, arg, false)
    else AfterEmail(d, p, arg)
  }

  /** The first loop over `args`, from `p`. */
  function FirstPassFrom(d: Detectors, p: Pass, args: seq<string>): Outcome<Pass>
  {
    if args == [] then Done(p)
    else match FirstPassFrom(d, p, args[..|args| - 1])
      case Raised => Raised
      case Done(q) => FirstStep(d, q, args[|args| - 1])
  }

  function FirstPass(d: Detectors, args: seq<string>): Outcome<Pass>
  {
    FirstPassFrom(d, Pass(Initial, {}), args)
  }

  // ---------------------------------------------------------------------------
  // The second pass

  const BusinessTerms: seq<string> := ["inc", "llc", "ltd", "corp", "co"]

  predicate HasBusinessTerm(arg: string)
  {
    exists k :: 0 <= k < |BusinessTerms| && Contains(Lower(arg), BusinessTerms[k])
  }

  /** `url.split("//")[-1].split("/")[0].lower()`. */
  function UrlDomain(url: string): string
  {
    var afterScheme := Split(url, "//");
    Lower(Split(afterScheme[|afterScheme| - 1], "/")[0])
  }

  /** The argument and the domain of `url` contain one another. */
  predicate DomainMatches(url: string, arg: string)
  {
    Contains(UrlDomain(url), Lower(arg)) || Contains(Lower(arg), UrlDomain(url))
  }

  predicate MatchesSomeWebsite(websites: seq<string>, arg: string)
  {
    exists k :: 0 <= k < |websites| && DomainMatches(websites[k], arg)
  }

  /**
   * One iteration of the second loop.  Each of its three branches (business
   * term, website domain, fallback) assigns the stripped argument.
   */
  function SecondStep(consumed: set<string>, f: Fields, arg: string): Fields
  {
    if arg in consumed || Truthy(f.company) then f
    else if HasBusinessTerm(arg) then f.(company := Some(Strip(arg)))
    else if MatchesSomeWebsite(f.websites, arg) then f.(company := Some(Strip(arg)))
    else f.(company := Some(Strip(arg)))
  }

  function SecondPass(consumed: set<string>, f: Fields, args: seq<string>): Fields
  {
    if args == [] then f
    else SecondStep(consumed, SecondPass(consumed, f, args[..|args| - 1]), args[|args| - 1])
  }

  // ---------------------------------------------------------------------------
  // Inference from the email

  /** The local webmail set of `parse_auto`, smaller than `WEBMAIL_DOMAINS`. */
  const AutoWebmail: set<string> := {
    "gmail.com", "yahoo.com", "hotmail.com", "outlook.com", "icloud.com", "aol.com", "protonmail.com", "hey.com"}

  /** The lower-cased text between the first and second '@'. */
  function AutoEmailDomain(email: string): string
    requires '@' in email
  {
    ContainsChar(email, '@');
    Lower(Split(email, "@")[1])
  }

  predicate AutoInferable(f: Fields)
  {
    !Truthy(f.company) && Truthy(f.email) && '@' in f.email.value
    && AutoEmailDomain(f.email.value) !in AutoWebmail
  }

  function InferCompany(f: Fields): (g: Fields)
    ensures AutoInferable(f) ==>
      g == f.(company := Some(Title(Split(AutoEmailDomain(f.email.value), ".")[0])))
    ensures !AutoInferable(f) ==> g == f
  {
    if !Truthy(f.company) && Truthy(f.email) && '@' in f.email.value then
      var domain := AutoEmailDomain(f.email.value);
      if domain !in AutoWebmail then f.(company := Some(Title(Split(domain, ".")[0]))) else f
    else f
  }

  /** What `parse_auto` returns for `args`. */
  function AutoFields(d: Detectors, args: seq<string>): Outcome<Fields>
  {
    match FirstPass(d, args)
    case Raised => Raised
    case Done(p) => Done(InferCompany(SecondPass(p.consumed, p.fields, args)))
  }

  // ---------------------------------------------------------------------------
  // `parse_auto`

  /** Once a prefix of the arguments raises, the whole first pass raises. */
  lemma {:induction false} RaisedPropagates(d: Detectors, p: Pass, args: seq<string>, k: nat)
    requires k <= |args| && FirstPassFrom(d, p, args[..k]) == Raised
    ensures FirstPassFrom(d, p, args) == Raised
    decreases |args| - k
  {
    if k < |args| {
      var init := args[..|args| - 1];
      assert init[..k] == args[..k];
      RaisedPropagates(d, p, init, k);
    } else {
      assert args[..k] == args;
    }
  }

  /** One iteration of the first loop of `parse_auto`, on the current fields and consumed texts. */
  method ClassifyArgument(d: Detectors, fields: Fields, consumed: set<string>, arg: string)
    returns (outcome: Outcome<Pass>)
    ensures outcome == FirstStep(d, Pass(fields, consumed), arg)
  {
    // 1. email
    if !Truthy(fields.email) {
      var email := d.email(arg);
      if email.Fault? {
        return Raised;
      }
      if Hit(email) {
        var f := fields.(email := Some(email.value));
        if !Truthy(f.firstName) {
          var name := d.name(arg);
          if !name.Match? {
            return Raised;
          }
          var (first, last) := name.value;
          if first != [] || last != [] {
            f := f.(firstName := Some(first), lastName := Some(last));
          }
        }
        return Done(Pass(f, consumed + {arg}));
      }
    }
    // 2. website
    var website := d.website(arg);
    if website.Fault? {
      return Raised;
    }
    if Hit(website) {
      return Done(Pass(fields.(websites := fields.websites + [website.value]), consumed + {arg}));
    }
    // 3. job title
    if !Truthy(fields.jobTitle) {
      var title := d.title(arg);
      if title.Fault? {
        return Raised;
      }
      if Hit(title) {
        return Done(Pass(fields.(jobTitle := Some(title.value)), consumed + {arg}));
      }
    }
    // 4. phone
    if !Truthy(fields.phone) {
      var phone := d.phone(arg);
      if phone.Fault? {
        return Raised;
      }
      if Hit(phone) {
        return Done(Pass(fields.(phone := Some(phone.value)), consumed + {arg}));
      }
    }
    // 5. name
    if !Truthy(fields.firstName) {
      var name := d.name(arg);
      if !name.Match? {
        return Raised;
      }
      var (first, last) := name.value;
      if first != [] || last != [] {
        return Done(Pass(fields.(firstName := Some(first), lastName := Some(last)), consumed + {arg}));
      }
    }
    return Done(Pass(fields, consumed));
  }

  /** The loop over the collected websites: does `arg` match the domain of one of them? */
  method MatchWebsites(websites: seq<string>, arg: string) returns (found: bool)
    ensures found == MatchesSomeWebsite(websites, arg)
  {
    for k := 0 to |websites|
      invariant forall j :: 0 <= j < k ==> !DomainMatches(websites[j], arg)
    {
      var domain := UrlDomain(websites[k]);
      if Contains(domain, Lower(arg)) || Contains(Lower(arg), domain) {
        return true;
      }
    }
    return false;
  }

  /** The second loop of `parse_auto`: the company fallback over the unconsumed arguments. */
  method CompanyPass(consumed: set<string>, start: Fields, arguments: seq<string>) returns (fields: Fields)
    ensures fields == SecondPass(consumed, start, arguments)
  {
    fields := start;
    for i := 0 to |arguments|
      invariant fields == SecondPass(consumed, start, arguments[..i])
    {
      assert arguments[..i + 1][..i] == arguments[..i];
      var arg := arguments[i];
      if arg in consumed {
        continue;
      }
      if !Truthy(fields.company) {
        // 6. company
        if HasBusinessTerm(arg) {
          fields := fields.(company := Some(Strip(arg)));
          continue;
        }
        if fields.websites != [] {
          var hit := MatchWebsites(fields.websites, arg);
          if hit {
            fields := fields.(company := Some(Strip(arg)));
          }
        }
        if Truthy(fields.company) {
          continue;
        }
        fields := fields.(company := Some(Strip(arg)));
      }
    }
    assert arguments[..|arguments|] == arguments;
  }

  /** `parse_auto`: the first pass, the company pass, then inference from the email. */
  method ParseAuto(d: Detectors, arguments: seq<string>) returns (outcome: Outcome<Fields>)
    ensures outcome == AutoFields(d, arguments)
  {
    var fields := Initial;
    var consumed: set<string> := {};
    for i := 0 to |arguments|
      invariant FirstPass(d, arguments[..i]) == Done(Pass(fields, consumed))
    {
      assert arguments[..i + 1][..i] == arguments[..i];
      var step := ClassifyArgument(d, fields, consumed, arguments[i]);
      match step {
        case Raised =>
          RaisedPropagates(d, Pass(Initial, {}), arguments, i + 1);
          return Raised;
        case Done(p) =>
          fields, consumed := p.fields, p.consumed;
      }
    }
    assert arguments[..|arguments|] == arguments;
    fields := CompanyPass(consumed, fields, arguments);
    return Done(InferCompany(fields));
  }

  // ---------------------------------------------------------------------------
  // Properties of `detect_argument_mode`

  /** Utility flags other than --explicit never influence the mode. */
  lemma ModeIgnoresUtilityFlags(args: map<string, ArgValue>, key: string, v: ArgValue)
    requires key in UtilityFlags && key != "--explicit"
    ensures DetectArgumentMode(args[key := v]) == DetectArgumentMode(args)
  {
    var args' := args[key := v];
    assert Get(args', "--explicit") == Get(args, "--explicit");
    assert Get(args', "TEXT") == Get(args, "TEXT");
    assert AnyNamedOption(args') == AnyNamedOption(args) by {
      if AnyNamedOption(args') {
        var k :| k in args' && IsNamedOption(k) && IsTruthy(args'[k]);
        assert k != key && k in args;
      }
      if AnyNamedOption(args) {
        var k :| k in args && IsNamedOption(k) && IsTruthy(args[k]);
        assert k != key && k in args';
      }
    }
  }

  /** A truthy field option selects named mode even when TEXT is given, unless --explicit is set. */
  lemma NamedBeatsText(args: map<string, ArgValue>, key: string, v: ArgValue)
    requires !IsTruthy(Get(args, "--explicit")) && IsNamedOption(key) && IsTruthy(v) && key != "--explicit"
    ensures DetectArgumentMode(args[key := v]) == Named
  {
    var args' := args[key := v];
    assert Get(args', "--explicit") == Get(args, "--explicit") by {
      assert key != "--explicit";
    }
    assert key in args' && IsNamedOption(key) && IsTruthy(args'[key]);
  }

  // ---------------------------------------------------------------------------
  // Properties of the first pass

  lemma {:induction false} FirstPassFromAppend(d: Detectors, p: Pass, a: seq<string>, b: seq<string>)
    ensures FirstPassFrom(d, p, a + b) ==
      match FirstPassFrom(d, p, a)
      case Raised => Raised
      case Done(q) => FirstPassFrom(d, q, b)
    decreases |b|
  {
    if b == [] {
      assert a + b == a;
    } else {
      assert (a + b)[..|a + b| - 1] == a + b[..|b| - 1];
      assert (a + b)[|a + b| - 1] == b[|b| - 1];
      FirstPassFromAppend(d, p, a, b[..|b| - 1]);
    }
  }

  /**
   * What the first pass never undoes: a truthy email, job title or phone, and a
   * truthy first name with its last name, stay; websites only grow at the end;
   * company and note are untouched; consumed texts stay consumed.
   */
  predicate Keeps(p: Pass, q: Pass)
  {
    (Truthy(p.fields.email) ==> q.fields.email == p.fields.email)
    && (Truthy(p.fields.jobTitle) ==> q.fields.jobTitle == p.fields.jobTitle)
    && (Truthy(p.fields.phone) ==> q.fields.phone == p.fields.phone)
    && (Truthy(p.fields.firstName) ==> q.fields.firstName == p.fields.firstName && q.fields.lastName == p.fields.lastName)
    && |p.fields.websites| <= |q.fields.websites| && q.fields.websites[..|p.fields.websites|] == p.fields.websites
    && q.fields.company == p.fields.company && q.fields.note == p.fields.note
    && p.consumed <= q.consumed
  }

  lemma FirstStepKeeps(d: Detectors, p: Pass, arg: string)
    requires FirstStep(d, p, arg).Done?
    ensures Keeps(p, FirstStep(d, p, arg).value)
  {
  }

  lemma KeepsTransitive(p: Pass, q: Pass, r: Pass)
    requires Keeps(p, q) && Keeps(q, r)
    ensures Keeps(p, r)
  {
    assert r.fields.websites[..|q.fields.websites|][..|p.fields.websites|] == r.fields.websites[..|p.fields.websites|];
  }

  lemma {:induction false} FirstPassFromKeeps(d: Detectors, p: Pass, args: seq<string>)
    requires FirstPassFrom(d, p, args).Done?
    ensures Keeps(p, FirstPassFrom(d, p, args).value)
  {
    if args == [] {
      assert p.fields.websites[..|p.fields.websites|] == p.fields.websites;
    } else {
      var init := args[..|args| - 1];
      FirstPassFromKeeps(d, p, init);
      var q := FirstPassFrom(d, p, init).value;
      FirstStepKeeps(d, q, args[|args| - 1]);
      KeepsTransitive(p, q, FirstPassFrom(d, p, args).value);
    }
  }

  /**
   * Once the first pass has a truthy email, job title or phone, or a truthy
   * first name, later arguments never change it.
   */
  lemma StickyFields(d: Detectors, a: seq<string>, b: seq<string>)
    requires FirstPass(d, a + b).Done?
    ensures FirstPass(d, a).Done? && Keeps(FirstPass(d, a).value, FirstPass(d, a + b).value)
  {
    FirstPassFromAppend(d, Pass(Initial, {}), a, b);
    FirstPassFromKeeps(d, FirstPass(d, a).value, b);
  }

  /** The groups of fields one argument may fill. */
  datatype Group = EmailAndName | WebsitesOnly | TitleOnly | PhoneOnly | NameOnly

  /** `g` differs from `f` at most in the fields of `grp`. */
  predicate ChangedWithin(f: Fields, g: Fields, grp: Group)
  {
    match grp
    case EmailAndName => g == f.(email := g.email, firstName := g.firstName, lastName := g.lastName)
    case WebsitesOnly => g == f.(websites := g.websites)
    case TitleOnly => g == f.(jobTitle := g.jobTitle)
    case PhoneOnly => g == f.(phone := g.phone)
    case NameOnly => g == f.(firstName := g.firstName, lastName := g.lastName)
  }

  /**
   * In the first pass an argument fills at most one field, except that the
   * argument taken as the email may also give the name; at most that argument
   * is newly consumed.
   */
  lemma OneFieldPerArgument(d: Detectors, p: Pass, arg: string)
    requires FirstStep(d, p, arg).Done?
    ensures var q := FirstStep(d, p, arg).value;
      (exists grp :: ChangedWithin(p.fields, q.fields, grp)) && q.consumed <= p.consumed + {arg}
  {
    var q := FirstStep(d, p, arg).value;
    var f := p.fields;
    var e := if Truthy(f.email) then NoMatch else d.email(arg);
    if Hit(e) {
      assert ChangedWithin(f, q.fields, EmailAndName);
    } else {
      var w := d.website(arg);
      if Hit(w) {
        assert ChangedWithin(f, q.fields, WebsitesOnly);
      } else {
        var t := if Truthy(f.jobTitle) then NoMatch else d.title(arg);
        if Hit(t) {
          assert ChangedWithin(f, q.fields, TitleOnly);
        } else {
          var ph := if Truthy(f.phone) then NoMatch else d.phone(arg);
          if Hit(ph) {
            assert ChangedWithin(f, q.fields, PhoneOnly);
          } else {
            assert ChangedWithin(f, q.fields, NameOnly);
          }
        }
      }
    }
  }

  // ---------------------------------------------------------------------------
  // Websites

  /** Argument `i` is the one taken as the email: the first on which the email detector hits. */
  predicate TakenAsEmail(d: Detectors, args: seq<string>, i: nat)
    requires i < |args|
  {
    Hit(d.email(args[i])) && forall j :: 0 <= j < i ==> !Hit(d.email(args[j]))
  }

  /** The website value found in `arg`, if any. */
  function WebsiteHit(d: Detectors, arg: string): seq<string>
  {
    if Hit(d.website(arg)) then [d.website(arg).value] else []
  }

  /** The website values of every argument but the one taken as the email, in order. */
  function WebsitesOf(d: Detectors, args: seq<string>): seq<string>
  {
    if args == [] then []
    else
      var last := if TakenAsEmail(d, args, |args| - 1) then [] else WebsiteHit(d, args[|args| - 1]);
      WebsitesOf(d, args[..|args| - 1]) + last
  }

  lemma TakenAsEmailPrefix(d: Detectors, args: seq<string>, i: nat)
    requires i < |args| - 1
    ensures TakenAsEmail(d, args, i) <==> TakenAsEmail(d, args[..|args| - 1], i)
  {
  }

  /** With an email already present, an argument adds its website value, if any. */
  lemma StepWithEmail(d: Detectors, q: Pass, x: string)
    requires Truthy(q.fields.email) && FirstStep(d, q, x).Done?
    ensures var g := FirstStep(d, q, x).value.fields;
      g.websites == q.fields.websites + WebsiteHit(d, x) && g.email == q.fields.email
  {
  }

  /** Without an email, an argument is taken as the email or adds its website value, if any. */
  lemma StepWithoutEmail(d: Detectors, q: Pass, x: string)
    requires q.fields.email == None && FirstStep(d, q, x).Done?
    ensures var g := FirstStep(d, q, x).value.fields;
      if Hit(d.email(x)) then g.websites == q.fields.websites && g.email == Some(d.email(x).value)
      else g.websites == q.fields.websites + WebsiteHit(d, x) && g.email == None
  {
  }

  /**
   * After the first pass the email is the value of the argument taken as the
   * email (none if there is none), and the websites are the website values of
   * all other arguments, in input order, repeats included.
   */
  lemma {:induction false} FirstPassWebsites(d: Detectors, args: seq<string>)
    requires FirstPass(d, args).Done?
    ensures var f := FirstPass(d, args).value.fields;
      f.websites == WebsitesOf(d, args)
      && ((forall i :: 0 <= i < |args| ==> !Hit(d.email(args[i]))) ==> f.email == None)
      && (forall i :: 0 <= i < |args| && TakenAsEmail(d, args, i) ==> f.email == Some(d.email(args[i]).value))
  {
    if args != [] {
      var init := args[..|args| - 1];
      var x := args[|args| - 1];
      var n := |args| - 1;
      FirstPassWebsites(d, init);
      var f := FirstPass(d, init).value.fields;
      var g := FirstPass(d, args).value.fields;
      forall i | 0 <= i < n ensures TakenAsEmail(d, args, i) <==> TakenAsEmail(d, init, i) {
        TakenAsEmailPrefix(d, args, i);
      }
      if exists i :: 0 <= i < n && TakenAsEmail(d, init, i) {
        var i :| 0 <= i < n && TakenAsEmail(d, init, i);
        assert Truthy(f.email);
        assert !TakenAsEmail(d, args, n);
        StepWithEmail(d, FirstPass(d, init).value, x);
      } else {
        assert forall i :: 0 <= i < n ==> !Hit(d.email(init[i])) by {
          forall i | 0 <= i < n ensures !Hit(d.email(init[i])) {
            if Hit(d.email(init[i])) {
              FirstHitExists(d, init, i);
            }
          }
        }
        assert f.email == None;
        StepWithoutEmail(d, FirstPass(d, init).value, x);
        if Hit(d.email(x)) {
          assert TakenAsEmail(d, args, n);
        }
      }
    }
  }

  /** A hit implies a first hit. */
  lemma {:induction false} FirstHitExists(d: Detectors, args: seq<string>, i: nat)
    requires i < |args| && Hit(d.email(args[i]))
    ensures exists k :: 0 <= k <= i && TakenAsEmail(d, args, k)
    decreases i
  {
    if !TakenAsEmail(d, args, i) {
      var j :| 0 <= j < i && Hit(d.email(args[j]));
      FirstHitExists(d, args, j);
    }
  }

  // ---------------------------------------------------------------------------
  // Company from the second pass

  /** Argument `i` is the first not consumed whose stripped text is non-empty. */
  predicate FirstCompanyArg(consumed: set<string>, args: seq<string>, i: nat)
    requires i < |args|
  {
    args[i] !in consumed && Strip(args[i]) != []
    && forall j :: 0 <= j < i ==> args[j] in consumed || Strip(args[j]) == []
  }

  /** Every argument is consumed or blank. */
  predicate AllSkipped(consumed: set<string>, args: seq<string>)
  {
    forall i :: 0 <= i < |args| ==> args[i] in consumed || Strip(args[i]) == []
  }

  predicate AnyUnconsumed(consumed: set<string>, args: seq<string>)
  {
    exists i :: 0 <= i < |args| && args[i] !in consumed
  }

  /**
   * Starting without a company, the second pass sets company to the stripped
   * text of the first unconsumed argument that is not blank; when there is
   * none it is "" if some argument was left unconsumed and stays `None`
   * otherwise.  Nothing but company changes.
   */
  lemma {:induction false} SecondPassCompany(consumed: set<string>, f: Fields, args: seq<string>)
    requires f.company == None
    ensures var g := SecondPass(consumed, f, args);
      g == f.(company := g.company)
      && (forall i :: 0 <= i < |args| && FirstCompanyArg(consumed, args, i) ==> g.company == Some(Strip(args[i])))
      && (AllSkipped(consumed, args) ==> g.company == (if AnyUnconsumed(consumed, args) then Some([]) else None))
  {
    if args != [] {
      var init := args[..|args| - 1];
      var x := args[|args| - 1];
      var n := |args| - 1;
      SecondPassCompany(consumed, f, init);
      var h := SecondPass(consumed, f, init);
      var g := SecondPass(consumed, f, args);
      forall i | 0 <= i < |args| && FirstCompanyArg(consumed, args, i)
        ensures g.company == Some(Strip(args[i]))
      {
        if i < n {
          assert FirstCompanyArg(consumed, init, i);
        } else {
          assert AllSkipped(consumed, init) by {
            forall j | 0 <= j < n ensures init[j] in consumed || Strip(init[j]) == [] {
              assert init[j] == args[j];
            }
          }
        }
      }
      if AllSkipped(consumed, args) {
        assert AllSkipped(consumed, init) by {
          forall j | 0 <= j < n ensures init[j] in consumed || Strip(init[j]) == [] {
            assert init[j] == args[j];
          }
        }
        assert AnyUnconsumed(consumed, args) <==> AnyUnconsumed(consumed, init) || x !in consumed by {
          if AnyUnconsumed(consumed, args) {
            var i :| 0 <= i < |args| && args[i] !in consumed;
            if i < n { assert init[i] == args[i]; }
          }
          if AnyUnconsumed(consumed, init) {
            var i :| 0 <= i < n && init[i] !in consumed;
            assert args[i] == init[i];
          }
        }
      }
    }
  }

  // ---------------------------------------------------------------------------
  // The result of `parse_auto`

  /** The company inferred from an email address by `parse_auto`, if its domain allows one. */
  function EmailCompany(email: Option<string>): Option<string>
  {
    if Truthy(email) && '@' in email.value && AutoEmailDomain(email.value) !in AutoWebmail
    then Some(Title(Split(AutoEmailDomain(email.value), ".")[0]))
    else None
  }

  /**
   * `parse_auto` keeps every field of the first pass but company, and `note`
   * stays `None`.  Company is the stripped text of the first unconsumed,
   * non-blank argument; failing that, the company inferred from the email;
   * failing that, "" when some argument was left unconsumed, and `None` otherwise.
   */
  lemma AutoResult(d: Detectors, args: seq<string>)
    requires AutoFields(d, args).Done?
    ensures var p := FirstPass(d, args).value;
      var g := AutoFields(d, args).value;
      g.note == None && g == p.fields.(company := g.company)
      && (forall i :: 0 <= i < |args| && FirstCompanyArg(p.consumed, args, i) ==> g.company == Some(Strip(args[i])))
      && (AllSkipped(p.consumed, args) ==>
            g.company == if EmailCompany(p.fields.email).Some? then EmailCompany(p.fields.email)
                         else if AnyUnconsumed(p.consumed, args) then Some([]) else None)
  {
    var p := FirstPass(d, args).value;
    FirstPassFromKeeps(d, Pass(Initial, {}), args);
    SecondPassCompany(p.consumed, p.fields, args);
  }

  // ---------------------------------------------------------------------------
  // Named mode: resolving the field options

  /** A websites entry: a plain URL, or a URL with a label (the LinkedIn entry). */
  datatype WebsiteEntry = Url(url: string) | Labelled(url: string, tag: string)

  /** The `websites` variable: `None`, an unsplit string, or a list. */
  datatype WebsitesValue = NoWebsites | RawWebsites(text: string) | WebsiteList(entries: seq<WebsiteEntry>)

  datatype NamedFields = NamedFields(
    first: Option<string>, last: Option<string>, email: Option<string>, phone: Option<string>,
    title: Option<string>, company: Option<string>, websites: WebsitesValue)

  /** The text of a value-taking option; docopt gives `None` for an option not given. */
  function Opt(opts: map<string, string>, key: string): Option<string>
  {
    if key in opts then Some(opts[key]) else None
  }

  /** Python's `a or b` on optional strings. */
  function Or(a: Option<string>, b: Option<string>): (r: Option<string>)
    ensures Truthy(a) ==> r == a
    ensures !Truthy(a) ==> r == b
  {
    if Truthy(a) then a else b
  }

  /** `[url.strip() for url in text.split(',')]`. */
  function SplitUrls(text: string): (es: seq<WebsiteEntry>)
    ensures |es| == |Split(text, ",")|
    ensures forall k :: 0 <= k < |es| ==>
      es[k] == Url(Strip(Split(text, ",")[k])) && IsStripped(es[k].url) && ',' !in es[k].url
  {
    var parts := Split(text, ",");
    forall k | 0 <= k < |parts| ensures ',' !in Strip(parts[k]) {
      ContainsChar(parts[k], ',');
    }
    seq(|parts|, k requires 0 <= k < |parts| => Url(Strip(parts[k])))
  }

  /** First and last name after the full-name option is applied; `parts[0]` of no words raises. */
  function ApplyFullName(first: Option<string>, last: Option<string>, full: Option<string>): Outcome<(Option<string>, Option<string>)>
  {
    if !Truthy(full) then Done((first, last))
    else
      var parts := Words(full.value);
      if first.None? && parts == [] then Raised
      else
        var first' := if first.None? then Some(Strip(parts[0])) else first;
        var rest := if parts == [] then [] else parts[1..];
        var last' := if last.None? then Some(Strip(Join(rest, " "))) else last;
        Done((first', last'))
  }

  /** The named-mode branch of `main`, up to the point where the fields are used. */
  function ResolveNamed(opts: map<string, string>): Outcome<NamedFields>
  {
    var first := Or(Or(Opt(opts, "--first"), Opt(opts, "--first-name")), Opt(opts, "--firstname"));
    var last := Or(Or(Opt(opts, "--last"), Opt(opts, "--last-name")), Opt(opts, "--lastname"));
    var full := Or(Opt(opts, "--full-name"), Opt(opts, "--name"));
    match ApplyFullName(first, last, full)
    case Raised => Raised
    case Done(names) =>
      var raw := Or(Opt(opts, "--websites"), Opt(opts, "--website"));
      var websites :=
        if Truthy(raw) then WebsiteList(SplitUrls(raw.value))
        else if raw.Some? then RawWebsites(raw.value)
        else NoWebsites;
      var linkedin := Opt(opts, "--linkedin");
      var websites' :=
        if !Truthy(linkedin) then websites
        else
          var entry := Labelled(linkedin.value, "LinkedIn");
          match websites
          case NoWebsites => WebsiteList([entry])
          case RawWebsites(t) => WebsiteList([Url(t), entry])
          case WebsiteList(es) => WebsiteList(es + [entry]);
      Done(NamedFields(names.0, names.1, Opt(opts, "--email"), Opt(opts, "--phone"),
                       Opt(opts, "--title"), Opt(opts, "--company"), websites'))
  }

  /** Words joined by single spaces have no whitespace at either end. */
  lemma JoinWordsStripped(ws: seq<string>)
    requires forall k :: 0 <= k < |ws| ==> IsWord(ws[k])
    ensures IsStripped(Join(ws, " "))
    ensures ws != [] ==> Join(ws, " ") != [] && Join(ws, " ")[0] == ws[0][0]
  {
    if |ws| >= 2 {
      JoinWordsStripped(ws[1..]);
      var rest := Join(ws[1..], " ");
      var j := ws[0] + " " + rest;
      assert j[0] == ws[0][0];
      assert j[|j| - 1] == rest[|rest| - 1];
    } else if |ws| == 1 {
      assert ws[0][|ws[0]| - 1] == ws[0][|ws[0]| - 1];
    }
  }

  /** A word is its own stripped text. */
  lemma WordStripped(w: string)
    requires IsWord(w)
    ensures Strip(w) == w
  {
  }

  /**
   * A full name fills only the names not given: the first word becomes the
   * first name and the remaining words, joined by single spaces, the last
   * name, so that the two together are the words of the full name.
   */
  lemma FullNameFillsMissing(first: Option<string>, last: Option<string>, full: string)
    requires full != [] && Words(full) != []
    ensures var r := ApplyFullName(first, last, Some(full));
      var ws := Words(full);
      r.Done?
      && r.value.0 == (if first.None? then Some(ws[0]) else first)
      && r.value.1 == (if last.None? then Some(Join(ws[1..], " ")) else last)
      && (first.None? && last.None? && |ws| >= 2 ==> r.value.0.value + " " + r.value.1.value == Join(ws, " "))
  {
    var ws := Words(full);
    WordStripped(ws[0]);
    JoinWordsStripped(ws[1..]);
  }

  /** A full name of whitespace only, with no first name given, raises (`parts[0]` of an empty list). */
  lemma BlankFullNameRaises(last: Option<string>, full: string)
    requires full != [] && AllSpace(full)
    ensures ApplyFullName(None, last, Some(full)) == Raised
  {
    StripLeftSpec(full);
  }

  /**
   * A websites option is split on commas into stripped URLs; a LinkedIn
   * option adds its labelled entry last.
   */
  lemma NamedWebsites(opts: map<string, string>)
    requires ResolveNamed(opts).Done?
    requires Truthy(Opt(opts, "--websites"))
    ensures var text := opts["--websites"];
      var es := SplitUrls(text);
      ResolveNamed(opts).value.websites ==
        if Truthy(Opt(opts, "--linkedin")) then WebsiteList(es + [Labelled(opts["--linkedin"], "LinkedIn")])
        else WebsiteList(es)
  {
  }
}
