// The version stamps of muddled/version_stamp.py: the release specification
// with its checked setters, the header and option entries of a stamp file,
// the tidying of problem texts, and the comparison of two stamps' checkouts.
// A stamp file section is a map from option names to their text; reading and
// writing the INI layout itself is not part of this model.

module VersionStamps {
  import opened Wrappers
  import opened Text
  import opened Labels
  import opened Repositories

  /** One section of a stamp file: option name to option text. */
  type Section = map<string, string>

  // ---------------------------------------------------------------------
  // Section helpers

  /** maybe_set_option: the option is set only when there is a value. */
  function MaybeSetOption(sec: Section, name: string, value: Option<string>): (r: Section)
    ensures value.None? ==> r == sec
    ensures value.Some? ==> name in r && r[name] == value.value
    ensures forall k | k in sec && k != name :: k in r && r[k] == sec[k]
    ensures r.Keys <= sec.Keys + {name}
  {
    if value.Some? then sec[name := value.value] else sec
  }

  /** maybe_get_option: the option's text or None, and the section left
      behind (without the option when `remove` is asked for). */
  function MaybeGetOption(sec: Section, name: string, remove: bool): (r: (Option<string>, Section))
    ensures r.0.Some? <==> name in sec
    ensures r.0.Some? ==> r.0.value == sec[name]
    ensures name !in r.1 <==> remove || name !in sec
    ensures forall k | k in sec && k != name :: k in r.1 && r.1[k] == sec[k]
    ensures r.1.Keys <= sec.Keys
  {
    if name in sec then (Some(sec[name]), if remove then sec - {name} else sec)
    else (None, sec)
  }

  /** get_and_remove_option: a missing option is ConfigParser's NoOptionError. */
  function GetAndRemoveOption(sec: Section, name: string): (r: Result<(string, Section)>)
    ensures r.Ok? <==> name in sec
    ensures r.Ok? ==> r.value.0 == sec[name] && r.value.1 == sec - {name}
    ensures r.Err? ==> r.error.Crash?
  {
    if name in sec then Ok((sec[name], sec - {name}))
    else Err(Crash("NoOptionError: No option '" + name + "'"))
  }

  /** What maybe_set_option writes, maybe_get_option reads back, whatever
      the section held before. */
  lemma SetThenGetOption(sec: Section, name: string, value: Option<string>, remove: bool)
    requires name !in sec
    ensures MaybeGetOption(MaybeSetOption(sec, name, value), name, remove).0 == value
    ensures MaybeGetOption(MaybeSetOption(sec, name, value), name, true).1 == sec
  {
    if value.Some? {
      assert sec[name := value.value] - {name} == sec;
    }
  }

  // ---------------------------------------------------------------------
  // Release names and versions

  /** The characters that may follow the first one: [A-Za-z0-9._-]. */
  predicate IsReleaseChar(c: char) { IsAlnum(c) || c == '.' || c == '_' || c == '-' }

  /** Where re.match of `[A-Za-z0-9][A-Za-z0-9._-]*` ends, or None when it
      does not match at all. */
  function MatchEnd(s: string): (r: Option<nat>)
    ensures r.Some? ==> 1 <= r.value <= |s|
  {
    if s == [] || !IsAlnum(s[0]) then None
    else Some(1 + RunLength(s[1..], IsReleaseChar))
  }

  /** The setters' test: a match that ends at the end of the value. */
  predicate Allowed(s: string) { MatchEnd(s) == Some(|s|) }

  /** A release name or version is accepted exactly when it starts with an
      ASCII letter or digit and goes on with letters, digits, '.', '_' or '-'. */
  lemma AllowedIff(s: string)
    ensures Allowed(s) <==> |s| > 0 && IsAlnum(s[0]) && AllChars(s[1..], IsReleaseChar)
  {
    if |s| > 0 && IsAlnum(s[0]) && AllChars(s[1..], IsReleaseChar) {
      RunLengthPrefix(s[1..], [], IsReleaseChar);
      assert s[1..] + [] == s[1..];
    }
  }

  /** What a release stamp records for a missing name or version. */
  const Placeholder := "<REPLACE THIS>"

  /** The placeholder is deliberately not an acceptable name. */
  lemma PlaceholderRefused()
    ensures !Allowed(Placeholder)
  {
    var p := Placeholder;
    assert p[0] == '<';
    RefusedFirst(p);
  }

  /** A value that does not start with a letter or digit is refused. */
  lemma RefusedFirst(s: string)
    requires |s| > 0 && !IsAlnum(s[0])
    ensures !Allowed(s)
  {
  }

  /** The allowed archive and compression values; the first is the default. */
  const Archives := ["tar"]
  const Compressions := ["gzip", "bzip2"]

  /** A name or version setter: None or an allowed string, else GiveUp. */
  function CheckNamed(what: string, value: Option<string>): (r: Result<Option<string>>)
    ensures r.Ok? <==> value.None? || Allowed(value.value)
    ensures r.Ok? ==> r.value == value
    ensures r.Err? ==> r.error.GiveUp?
  {
    if value.None? || Allowed(value.value) then Ok(value)
    else Err(GiveUp("Release " + what + " \"" + value.value + "\" is not allowed"))
  }

  /** An archive or compression setter: None takes the first allowed value,
      anything else must be in the list, else GiveUp. */
  function CheckChoice(what: string, allowed: seq<string>, value: Option<string>): (r: Result<string>)
    requires |allowed| > 0
    ensures r.Ok? <==> value.None? || value.value in allowed
    ensures r.Ok? ==> r.value in allowed
    ensures r.Ok? && value.Some? ==> r.value == value.value
    ensures r.Ok? && value.None? ==> r.value == allowed[0]
    ensures r.Err? ==> r.error.GiveUp?
  {
    if value.None? then Ok(allowed[0])
    else if value.value in allowed then Ok(value.value)
    else Err(GiveUp("Release " + what + " \"" + value.value + "\" is not allowed"))
  }

  /** The state of a release specification: what the setters let through. */
  datatype Spec = Spec(name: Option<string>, version: Option<string>, archive: string,
                       compression: string, hash: Option<string>)

  predicate SpecValid(s: Spec) {
    (s.name.None? || Allowed(s.name.value)) && (s.version.None? || Allowed(s.version.value))
    && s.archive in Archives && s.compression in Compressions
  }

  /** ReleaseSpec(name, version, archive, compression, hash): the setters run
      in that order, and the first refusal is the error. */
  function MakeSpec(name: Option<string>, version: Option<string>, archive: Option<string>,
                    compression: Option<string>, hash: Option<string>): (r: Result<Spec>)
    ensures r.Ok? <==> (name.None? || Allowed(name.value)) && (version.None? || Allowed(version.value))
                       && (archive.None? || archive.value in Archives)
                       && (compression.None? || compression.value in Compressions)
    ensures r.Ok? ==> SpecValid(r.value) && r.value.name == name && r.value.version == version
                      && r.value.hash == hash
    ensures r.Ok? ==> r.value.archive == archive.GetOr(Archives[0])
                      && r.value.compression == compression.GetOr(Compressions[0])
    ensures r.Err? ==> r.error.GiveUp?
  {
    var n :- CheckNamed("name", name);
    var v :- CheckNamed("version", version);
    var a :- CheckChoice("archive", Archives, archive);
    var c :- CheckChoice("compression", Compressions, compression);
    Ok(Spec(n, v, a, c, hash))
  }

  /** The ReleaseSpec object, whose properties check what they are given. */
  class ReleaseSpec {
    var name: Option<string>
    var version: Option<string>
    var archive: string
    var compression: string
    var hash: Option<string>

    predicate Valid()
      reads this
    {
      SpecValid(Value())
    }

    function Value(): Spec
      reads this
    {
      Spec(name, version, archive, compression, hash)
    }

    /** ReleaseSpec() with no arguments: no name or version, the default
        archive and compression, no hash. */
    constructor ()
      ensures Valid()
      ensures Value() == Spec(None, None, "tar", "gzip", None)
    {
      name := None;
      version := None;
      archive := "tar";
      compression := "gzip";
      hash := None;
    }

    method SetName(value: Option<string>) returns (o: Outcome)
      modifies this`name
      ensures o.Pass? <==> value.None? || Allowed(value.value)
      ensures o.Pass? ==> name == value
      ensures o.Fail? ==> name == old(name) && o.error.GiveUp?
      ensures old(Valid()) ==> Valid()
    {
      var r := CheckNamed("name", value);
      if r.Ok? {
        name := r.value;
        o := Pass;
      } else {
        o := Fail(r.error);
      }
    }

    method SetVersion(value: Option<string>) returns (o: Outcome)
      modifies this`version
      ensures o.Pass? <==> value.None? || Allowed(value.value)
      ensures o.Pass? ==> version == value
      ensures o.Fail? ==> version == old(version) && o.error.GiveUp?
      ensures old(Valid()) ==> Valid()
    {
      var r := CheckNamed("version", value);
      if r.Ok? {
        version := r.value;
        o := Pass;
      } else {
        o := Fail(r.error);
      }
    }

    method SetArchive(value: Option<string>) returns (o: Outcome)
      modifies this`archive
      ensures o.Pass? <==> value.None? || value.value in Archives
      ensures o.Pass? ==> archive == value.GetOr("tar")
      ensures o.Fail? ==> archive == old(archive) && o.error.GiveUp?
      ensures old(Valid()) ==> Valid()
    {
      var r := CheckChoice("archive", Archives, value);
      if r.Ok? {
        archive := r.value;
        o := Pass;
      } else {
        o := Fail(r.error);
      }
    }

    method SetCompression(value: Option<string>) returns (o: Outcome)
      modifies this`compression
      ensures o.Pass? <==> value.None? || value.value in Compressions
      ensures o.Pass? ==> compression == value.GetOr("gzip")
      ensures o.Fail? ==> compression == old(compression) && o.error.GiveUp?
      ensures old(Valid()) ==> Valid()
    {
      var r := CheckChoice("compression", Compressions, value);
      if r.Ok? {
        compression := r.value;
        o := Pass;
      } else {
        o := Fail(r.error);
      }
    }
  }

  /** ReleaseSpec(name, version, archive, compression, hash) as the object:
      it runs the setters in order, so it is made exactly when MakeSpec
      accepts the arguments, and then holds MakeSpec's value. */
  method NewReleaseSpec(name: Option<string>, version: Option<string>, archive: Option<string>,
                        compression: Option<string>, hash: Option<string>)
    returns (r: Result<ReleaseSpec>)
    ensures r.Ok? <==> MakeSpec(name, version, archive, compression, hash).Ok?
    ensures r.Ok? ==> fresh(r.value) && r.value.Valid()
                      && r.value.Value() == MakeSpec(name, version, archive, compression, hash).value
    ensures r.Err? ==> r.error.GiveUp?
  {
    var spec := new ReleaseSpec();
    var o := spec.SetName(name);
    if o.Fail? { return Err(o.error); }
    o := spec.SetVersion(version);
    if o.Fail? { return Err(o.error); }
    o := spec.SetArchive(archive);
    if o.Fail? { return Err(o.error); }
    o := spec.SetCompression(compression);
    if o.Fail? { return Err(o.error); }
    spec.hash := hash;
    r := Ok(spec);
  }

  /** The RELEASE section a release stamp writes: a missing name or version
      is written as the placeholder. */
  function ReleaseSection(s: Spec): (r: Section)
    ensures r.Keys == {"name", "version", "archive", "compression"}
  {
    map["name" := if Given(s.name) then s.name.value else Placeholder,
        "version" := if Given(s.version) then s.version.value else Placeholder,
        "archive" := s.archive,
        "compression" := s.compression]
  }

  /** ReleaseStamp.from_file's reading of the RELEASE section. */
  function ReadReleaseSection(sec: Section): (r: Result<Spec>)
    ensures r.Ok? ==> SpecValid(r.value)
  {
    if "name" !in sec || "version" !in sec || "archive" !in sec || "compression" !in sec then
      Err(Crash("NoOptionError"))
    else
      MakeSpec(Some(sec["name"]), Some(sec["version"]), Some(sec["archive"]),
               Some(sec["compression"]), None)
  }

  /** A written release section reads back to the same specification when
      name and version are set; when either is missing, the placeholder is
      refused on reading. */
  lemma ReleaseSectionRoundTrip(s: Spec)
    requires SpecValid(s)
    ensures s.name.Some? && s.version.Some? ==>
              ReadReleaseSection(ReleaseSection(s)) == Ok(s.(hash := None))
    ensures s.name.None? || s.version.None? ==>
              ReadReleaseSection(ReleaseSection(s)).Err? && ReadReleaseSection(ReleaseSection(s)).error.GiveUp?
  {
    PlaceholderRefused();
    if s.name.Some? {
      assert s.name.value != "" by { assert MatchEnd(s.name.value).Some?; }
    }
    if s.version.Some? {
      assert s.version.value != "" by { assert MatchEnd(s.version.value).Some?; }
    }
  }

  // ---------------------------------------------------------------------
  // Stamp file versions and the header

  /** VersionStamp.write_to_file_object writes version 1 or 2 only. */
  function CheckWriteVersion(version: int): (o: Outcome)
    ensures o.Pass? <==> version == 1 || version == 2
    ensures o.Fail? ==> o.error.GiveUp?
  {
    if version == 1 || version == 2 then Pass
    else Fail(GiveUp("Attempt to write version " + IntString(version) + " stamp file; we only support 1 or 2"))
  }

  /** ReleaseStamp.write_to_file_object writes version 2 only. */
  function CheckReleaseWriteVersion(version: int): (o: Outcome)
    ensures o.Pass? <==> version == 2
    ensures o.Fail? ==> o.error.GiveUp?
  {
    if version == 2 then Pass
    else Fail(GiveUp("Release stamp files must be version 2 stamp files, not version " + IntString(version)))
  }

  /** '%d' of any integer. */
  function IntString(i: int): (s: string)
    ensures |s| > 0
  {
    if i < 0 then "-" + DecimalString(-i) else DecimalString(i)
  }

  /** int() reads back what '%d' wrote. */
  lemma IntStringParses(i: int)
    ensures ParseInt(IntString(i)) == Some(i)
  {
    var s := IntString(i);
    var d := DecimalString(if i < 0 then -i else i);
    DecimalRoundTrip(if i < 0 then -i else i);
    assert !IsSpace(s[0]) && !IsSpace(s[|s| - 1]) by {
      assert s[|s| - 1] == d[|d| - 1];
      assert IsDigit(d[0]) && IsDigit(d[|d| - 1]);
    }
    if i < 0 {
      assert s[1..] == d;
    }
  }

  /** The STAMP section written before everything else: present from
      version 2 on. */
  function StampSection(version: int): (r: Option<Section>)
    ensures r.Some? <==> version > 1
  {
    if version > 1 then Some(map["version" := IntString(version)]) else None
  }

  /** _extract_config_header's version: no STAMP section means version 1; a
      STAMP section must hold the integer 2. */
  function ReadStampVersion(stamp: Option<Section>): (r: Result<int>)
    ensures r.Ok? ==> r.value == 1 || r.value == 2
    ensures r == Ok(1) <==> stamp.None?
    ensures r == Ok(2) <==> stamp.Some? && "version" in stamp.value
                            && ParseInt(stamp.value["version"]) == Some(2)
  {
    if stamp.None? then Ok(1)
    else if "version" !in stamp.value then Err(Crash("NoOptionError: No option 'version'"))
    else
      var text := stamp.value["version"];
      match ParseInt(text)
      case None => Err(GiveUp("Unexpected version " + text + " - expecting an integer, and particularly 1 or 2"))
      case Some(v) =>
        if v == 1 then Err(GiveUp("Version 1 stamp files should not have STAMP sections"))
        else if v != 2 then Err(GiveUp("This version of muddle does not know how to parse a version " + IntString(v) + " stamp file"))
        else Ok(2)
  }

  /** Every version the writer accepts is read back as written. */
  lemma StampVersionRoundTrip(version: int)
    requires CheckWriteVersion(version).Pass?
    ensures ReadStampVersion(StampSection(version)) == Ok(version)
  {
    IntStringParses(version);
  }

  /** The ROOT section's contents. */
  datatype Header = Header(repository: string, description: string,
                           descriptionBranch: Option<string>, versionsRepo: Option<string>)

  /** The ROOT section written by _write_to_file_object_end: the branch only
      when it is set and not empty, the versions repository when set. */
  function RootSection(h: Header): (r: Section)
    ensures "repository" in r && "description" in r
  {
    var base := map["repository" := h.repository, "description" := h.description];
    var withBranch := if Given(h.descriptionBranch) then base["description_branch" := h.descriptionBranch.value] else base;
    MaybeSetOption(withBranch, "versions_repo", h.versionsRepo)
  }

  /** The ROOT section read by _extract_config_header. */
  function ReadRootSection(sec: Section): (r: Result<Header>)
    ensures r.Ok? <==> "repository" in sec && "description" in sec
  {
    if "repository" !in sec || "description" !in sec then Err(Crash("NoOptionError"))
    else Ok(Header(sec["repository"], sec["description"],
                   MaybeGetOption(sec, "description_branch", false).0,
                   MaybeGetOption(sec, "versions_repo", false).0))
  }

  /** The header reads back as written, except that an empty branch name is
      not written and so comes back as None. */
  lemma RootRoundTrip(h: Header)
    ensures h.descriptionBranch != Some("") ==> ReadRootSection(RootSection(h)) == Ok(h)
    ensures h.descriptionBranch == Some("") ==>
              ReadRootSection(RootSection(h)) == Ok(h.(descriptionBranch := None))
  {
  }

  // ---------------------------------------------------------------------
  // Problem texts

  predicate NotSpace(c: char) { !IsSpace(c) }

  /** A word of str.split(): some characters, none of them whitespace. */
  predicate IsWord(w: string) { |w| > 0 && AllChars(w, NotSpace) }

  /** str.split() with no separator: the maximal runs of non-whitespace. */
  function Words(s: string): (ws: seq<string>)
    ensures forall i | 0 <= i < |ws| :: IsWord(ws[i])
    decreases |s|
  {
    if s == [] then []
    else if IsSpace(s[0]) then Words(s[1..])
    else
      var n := RunLength(s, NotSpace);
      [s[..n]] + Words(s[n..])
  }

  /** ' '.join(item.split()): how a problem text is written into a stamp. */
  function Collapse(s: string): string {
    Join(Words(s), " ")
  }

  lemma WordsSkipSpace(s: string)
    requires |s| > 0 && IsSpace(s[0])
    ensures Words(s) == Words(s[1..])
  {
  }

  /** Splitting a space-joined list of words gives the words back. */
  lemma {:induction false} WordsOfJoin(ws: seq<string>)
    requires forall i | 0 <= i < |ws| :: IsWord(ws[i])
    ensures Words(Join(ws, " ")) == ws
    decreases |ws|
  {
    if ws == [] {
    } else if |ws| == 1 {
      var w := ws[0];
      RunLengthPrefix(w, [], NotSpace);
      assert w + [] == w;
      assert w[|w|..] == [];
    } else {
      var w := ws[0];
      var rest := Join(ws[1..], " ");
      var s := Join(ws, " ");
      JoinHead(ws, " ");
      assert s == w + (" " + rest);
      RunLengthPrefix(w, " " + rest, NotSpace);
      assert RunLength(" " + rest, NotSpace) == 0;
      assert s[..|w|] == w;
      assert s[|w|..] == " " + rest;
      WordsSkipSpace(" " + rest);
      assert (" " + rest)[1..] == rest;
      WordsOfJoin(ws[1..]);
      assert ws == [w] + ws[1..];
    }
  }

  /** Tidying a problem text a second time changes nothing. */
  lemma CollapseIdempotent(s: string)
    ensures Collapse(Collapse(s)) == Collapse(s)
  {
    WordsOfJoin(Words(s));
  }

  /** The only whitespace left in a written problem is the single spaces
      between words: no line breaks, nothing at either end. */
  lemma {:induction false} CollapseShape(ws: seq<string>)
    requires forall i | 0 <= i < |ws| :: IsWord(ws[i])
    ensures var c := Join(ws, " ");
            (forall i | 0 <= i < |c| :: c[i] == ' ' || NotSpace(c[i]))
            && (c == [] || (NotSpace(c[0]) && NotSpace(c[|c| - 1])))
            && (forall i | 0 <= i < |c| - 1 :: c[i] == ' ' ==> c[i + 1] != ' ')
    decreases |ws|
  {
    if |ws| > 1 {
      var w := ws[0];
      var rest := Join(ws[1..], " ");
      JoinHead(ws, " ");
      CollapseShape(ws[1..]);
      var c := w + (" " + rest);
      assert forall i | 0 <= i < |w| :: c[i] == w[i];
      assert c[|w|] == ' ';
      assert forall i | |w| < i < |c| :: c[i] == rest[i - |w| - 1];
    }
  }

  /** The values of the PROBLEMS section, problem1, problem2, ... in order:
      each problem tidied. */
  function WrittenProblems(problems: seq<string>): (r: seq<string>)
    ensures |r| == |problems|
  {
    if problems == [] then [] else [Collapse(problems[0])] + WrittenProblems(problems[1..])
  }

  /** Every written problem is already tidy: tidying it again changes
      nothing. */
  lemma {:induction false} WrittenProblemsTidy(problems: seq<string>)
    ensures forall i | 0 <= i < |problems| :: Collapse(WrittenProblems(problems)[i]) == WrittenProblems(problems)[i]
    decreases |problems|
  {
    if problems != [] {
      CollapseIdempotent(problems[0]);
      WrittenProblemsTidy(problems[1..]);
    }
  }

  // ---------------------------------------------------------------------
  // Checkout options

  /** The type name written before an option's value. */
  function TypeName(v: Value): string {
    match v
    case BoolValue(_) => "bool"
    case IntValue(_) => "int"
    case _ => "str"
  }

  /** '%s' of an option value. */
  function ValueText(v: Value): string {
    match v
    case NoneValue => "None"
    case BoolValue(b) => if b then "True" else "False"
    case IntValue(i) => IntString(i)
    case StrValue(s) => s
  }

  /** The `option~K = T:V` entry _set_v2_checkout_for_write makes. */
  function OptionEntry(name: string, v: Value): (string, string) {
    ("option~" + name, TypeName(v) + ":" + ValueText(v))
  }

  /** key[7:]: what follows `option~`. */
  function OptionName(key: string): string {
    if |key| >= 7 then key[7..] else []
  }

  /** _parse_option: `option~K = T:V` gives (K, V as a T) for T in int, bool
      and str, and GiveUp for anything else. */
  function ParseOption(section: string, key: string, value: string): (r: Result<(string, Value)>)
    ensures ':' !in value ==> r.Err?
    ensures r.Ok? ==> r.value.0 == OptionName(key)
    ensures r.Ok? ==> var t := value[..Find(value, ':')];
                      (t == "int" && r.value.1.IntValue?) || (t == "bool" && r.value.1.BoolValue?)
                      || (t == "str" && r.value.1 == StrValue(value[Find(value, ':') + 1..]))
    ensures r.Err? ==> r.error.GiveUp?
  {
    var colon := Find(value, ':');
    if colon == -1 then
      Err(GiveUp("No datatype (no colon in value), for '" + key + " = " + value + "' in [" + section + "]"))
    else ParseTyped(section, key, value, value[..colon], value[colon + 1..])
  }

  /** The typed part of _parse_option, once the value is split at its first
      colon into the type name and the text. */
  function ParseTyped(section: string, key: string, value: string, ty: string, text: string)
    : (r: Result<(string, Value)>)
    ensures r.Ok? ==> r.value.0 == OptionName(key)
    ensures r.Ok? ==> (ty == "int" && r.value.1.IntValue?) || (ty == "bool" && r.value.1.BoolValue?)
                      || (ty == "str" && r.value.1 == StrValue(text))
    ensures r.Err? ==> r.error.GiveUp?
  {
    if ty == "int" then
      match ParseInt(text)
      case None => Err(GiveUp("Cannot convert value to integer, for '" + key + " = " + value + "' in [" + section + "]"))
      case Some(i) => Ok((OptionName(key), IntValue(i)))
    else if ty == "bool" then
      if text == "True" then Ok((OptionName(key), BoolValue(true)))
      else if text == "False" then Ok((OptionName(key), BoolValue(false)))
      else Err(GiveUp("Value is not True or False, for '" + key + " = " + value + "' in [" + section + "]"))
    else if ty != "str" then
      Err(GiveUp("Unrecognised datatype '" + ty + "' (not bool, int or str), for '" + key + " = " + value + "' in [" + section + "]"))
    else Ok((OptionName(key), StrValue(text)))
  }

  /** A value made of a type name without a colon, a colon and a text
      splits there. */
  lemma SplitsAtColon(section: string, key: string, ty: string, text: string)
    requires ':' !in ty
    ensures ParseOption(section, key, ty + ":" + text) == ParseTyped(section, key, ty + ":" + text, ty, text)
  {
    var value := ty + ":" + text;
    FindAfterFree(ty, ":" + text, ':');
    assert value == ty + (":" + text);
    assert value[..|ty|] == ty;
    assert value[|ty| + 1..] == text;
  }

  /** An option written to a stamp is read back with its name and value;
      None, written as a str, comes back as the text "None". */
  lemma OptionRoundTrip(section: string, name: string, v: Value)
    ensures var (key, text) := OptionEntry(name, v);
            ParseOption(section, key, text) == Ok((name, if v.NoneValue? then StrValue("None") else v))
  {
    var ty := TypeName(v);
    assert ':' !in ty;
    SplitsAtColon(section, "option~" + name, ty, ValueText(v));
    assert ("option~" + name)[7..] == name;
    if v.IntValue? {
      IntStringParses(v.i);
    }
  }

  // ---------------------------------------------------------------------
  // Comparing the checkouts of two stamps

  /** A checkout's entry: its directory under src/, its leaf and where it
      comes from. */
  datatype Entry = Entry(coDir: Option<string>, coLeaf: Option<string>, repo: Repository)

  type Options = map<string, Value>

  /** The checkouts and their options; the other parts of a stamp take no
      part in the comparison. */
  datatype Stamp = Stamp(checkouts: map<Label, Entry>, options: map<Label, Options>)

  /** Python's == on option values: True equals 1 and False equals 0. */
  predicate ValueEq(a: Value, b: Value) {
    match (a, b)
    case (NoneValue, NoneValue) => true
    case (BoolValue(x), BoolValue(y)) => x == y
    case (IntValue(x), IntValue(y)) => x == y
    case (BoolValue(x), IntValue(y)) => y == (if x then 1 else 0)
    case (IntValue(x), BoolValue(y)) => x == (if y then 1 else 0)
    case (StrValue(x), StrValue(y)) => x == y
    case _ => false
  }

  /** Python's == on two option dictionaries. */
  predicate OptionsEq(a: Options, b: Options) {
    a.Keys == b.Keys && forall k | k in a :: ValueEq(a[k], b[k])
  }

  function OptionsOf(s: Stamp, l: Label): Options {
    if l in s.options then s.options[l] else map[]
  }

  /** What differs, other than the revision, between two entries of the same
      checkout, in the sorted order the report names them. */
  function Mismatches(e1: Entry, e2: Entry, o1: Options, o2: Options): seq<string> {
    (if e1.coDir != e2.coDir then ["co_dir"] else [])
    + (if e1.coLeaf != e2.coLeaf then ["co_leaf"] else [])
    + (if !OptionsEq(o1, o2) then ["options"] else [])
    + (if !SameIgnoringRevision(e1.repo, e2.repo) then ["repository"] else [])
  }

  /** The problem text for a checkout that differs in more than revision. */
  function ProblemText(l: Label, errors: seq<string>): string {
    "Checkout " + Render(l) + " does not match: " + Join(errors, ", ")
  }

  /** Every checkout either stamp holds. */
  function AllLabels(a: Stamp, b: Stamp): set<Label> {
    a.checkouts.Keys + b.checkouts.Keys
  }

  /** Among the labels `d`: the checkouts of `a` that `b` does not have. */
  function DeletedAmong(a: Stamp, b: Stamp, d: set<Label>): set<(Label, Entry)> {
    set l | l in d && l in a.checkouts && l !in b.checkouts :: (l, a.checkouts[l])
  }

  /** Both hold `l`, with repositories that differ only by revision, and
      the revisions differ. */
  predicate RevisionChanged(a: Stamp, b: Stamp, l: Label) {
    l in a.checkouts && l in b.checkouts
    && SameIgnoringRevision(a.checkouts[l].repo, b.checkouts[l].repo)
    && a.checkouts[l].repo.revision != b.checkouts[l].repo.revision
  }

  /** Among the labels `d`: the checkouts whose revision alone changed, with
      the two revisions. */
  function ChangedAmong(a: Stamp, b: Stamp, d: set<Label>): set<(Label, Option<string>, Option<string>)> {
    set l | l in d && RevisionChanged(a, b, l)
          :: (l, a.checkouts[l].repo.revision, b.checkouts[l].repo.revision)
  }

  /** What differs, beyond revision, in a checkout both hold. */
  function MismatchesOf(a: Stamp, b: Stamp, l: Label): seq<string>
    requires l in a.checkouts && l in b.checkouts
  {
    Mismatches(a.checkouts[l], b.checkouts[l], OptionsOf(a, l), OptionsOf(b, l))
  }

  predicate Mismatched(a: Stamp, b: Stamp, l: Label) {
    l in a.checkouts && l in b.checkouts && MismatchesOf(a, b, l) != []
  }

  /** Among the labels `d`: the checkouts in both that differ in anything
      but revision, with the problem text. */
  function ProblemsAmong(a: Stamp, b: Stamp, d: set<Label>): set<(Label, string)> {
    set l | l in d && Mismatched(a, b, l) :: (l, ProblemText(l, MismatchesOf(a, b, l)))
  }

  /** compare_checkouts' four results: the checkouts deleted and new, with
      their entries; those whose revision alone changed, with both revisions;
      and the problems. */
  datatype Report = Report(deleted: set<(Label, Entry)>, added: set<(Label, Entry)>,
                           changed: set<(Label, Option<string>, Option<string>)>,
                           problems: set<(Label, string)>)

  function ReportAmong(a: Stamp, b: Stamp, d: set<Label>): Report {
    Report(DeletedAmong(a, b, d), DeletedAmong(b, a, d), ChangedAmong(a, b, d), ProblemsAmong(a, b, d))
  }

  /** What comparing `a` with `b` reports, over every checkout of either. */
  function Comparison(a: Stamp, b: Stamp): Report { ReportAmong(a, b, AllLabels(a, b)) }

  /** The comparison of one checkout both stamps hold, as the code does it:
      a revision change is recorded when the repositories are otherwise the
      same, and every other difference is named. */
  method CompareOne(l: Label, e1: Entry, e2: Entry, o1: Options, o2: Options)
    returns (changed: Option<(Label, Option<string>, Option<string>)>, errors: seq<string>)
    ensures changed.Some? <==> SameIgnoringRevision(e1.repo, e2.repo) && e1.repo.revision != e2.repo.revision
    ensures changed.Some? ==> changed.value == (l, e1.repo.revision, e2.repo.revision)
    ensures errors == Mismatches(e1, e2, o1, o2)
  {
    changed := None;
    var repository, coDir, coLeaf, options := false, false, false, false;
    if e1.coDir != e2.coDir || e1.coLeaf != e2.coLeaf || !Same(e1.repo, e2.repo) {
      if SameIgnoringRevision(e1.repo, e2.repo) {
        if e1.repo.revision != e2.repo.revision {
          changed := Some((l, e1.repo.revision, e2.repo.revision));
        }
      } else {
        repository := true;
      }
      if e1.coDir != e2.coDir {
        coDir := true;
      }
      if e1.coLeaf != e2.coLeaf {
        coLeaf := true;
      }
    }
    if !OptionsEq(o1, o2) {
      options := true;
    }
    errors := (if coDir then ["co_dir"] else []) + (if coLeaf then ["co_leaf"] else [])
              + (if options then ["options"] else []) + (if repository then ["repository"] else []);
  }

  /** What one label adds to the report. */
  function Contribution(a: Stamp, b: Stamp, l: Label): Report {
    Report(if l in a.checkouts && l !in b.checkouts then {(l, a.checkouts[l])} else {},
           if l in b.checkouts && l !in a.checkouts then {(l, b.checkouts[l])} else {},
           if RevisionChanged(a, b, l)
           then {(l, a.checkouts[l].repo.revision, b.checkouts[l].repo.revision)} else {},
           if Mismatched(a, b, l) then {(l, ProblemText(l, MismatchesOf(a, b, l)))} else {})
  }

  function Plus(r: Report, s: Report): Report {
    Report(r.deleted + s.deleted, r.added + s.added, r.changed + s.changed, r.problems + s.problems)
  }

  lemma DeletedStep(a: Stamp, b: Stamp, d: set<Label>, l: Label)
    ensures DeletedAmong(a, b, d + {l}) == DeletedAmong(a, b, d)
              + (if l in a.checkouts && l !in b.checkouts then {(l, a.checkouts[l])} else {})
  {
  }

  lemma ChangedStep(a: Stamp, b: Stamp, d: set<Label>, l: Label)
    ensures ChangedAmong(a, b, d + {l}) == ChangedAmong(a, b, d) + Contribution(a, b, l).changed
  {
  }

  lemma ProblemsStep(a: Stamp, b: Stamp, d: set<Label>, l: Label)
    ensures ProblemsAmong(a, b, d + {l}) == ProblemsAmong(a, b, d) + Contribution(a, b, l).problems
  {
  }

  /** Adding a label to those considered adds its contribution. */
  lemma ReportStep(a: Stamp, b: Stamp, d: set<Label>, l: Label)
    ensures ReportAmong(a, b, d + {l}) == Plus(ReportAmong(a, b, d), Contribution(a, b, l))
  {
    DeletedStep(a, b, d, l);
    DeletedStep(b, a, d, l);
    ChangedStep(a, b, d, l);
    ProblemsStep(a, b, d, l);
  }

  /** The contribution of one label, as the loop body of compare_checkouts
      works it out. */
  method CompareLabel(a: Stamp, b: Stamp, l: Label) returns (c: Report)
    requires l in AllLabels(a, b)
    ensures c == Contribution(a, b, l)
  {
    c := Report({}, {}, {}, {});
    if l in a.checkouts && l in b.checkouts {
      var ch, errors := CompareOne(l, a.checkouts[l], b.checkouts[l], OptionsOf(a, l), OptionsOf(b, l));
      if ch.Some? {
        c := c.(changed := {ch.value});
      }
      if errors != [] {
        c := c.(problems := {(l, ProblemText(l, errors))});
      }
    } else if l in a.checkouts {
      c := c.(deleted := {(l, a.checkouts[l])});
    } else {
      c := c.(added := {(l, b.checkouts[l])});
    }
  }

  lemma TakeOne(all: set<Label>, todo: set<Label>, l: Label)
    requires l in todo && todo <= all
    ensures all - (todo - {l}) == (all - todo) + {l}
  {
  }

  /** compare_checkouts: the checkouts only in `a` (deleted), only in `b`
      (new), those whose revision alone changed, and the problems. */
  method CompareCheckouts(a: Stamp, b: Stamp) returns (r: Report)
    ensures r == Comparison(a, b)
  {
    r := Report({}, {}, {}, {});
    var todo := AllLabels(a, b);
    ghost var done: set<Label> := {};
    while todo != {}
      invariant todo <= AllLabels(a, b) && done == AllLabels(a, b) - todo
      invariant r == ReportAmong(a, b, done)
      decreases |todo|
    {
      var l :| l in todo;
      var c := CompareLabel(a, b, l);
      ReportStep(a, b, done, l);
      r := Plus(r, c);
      TakeOne(AllLabels(a, b), todo, l);
      todo := todo - {l};
      done := done + {l};
    }
  }

  // Properties of the comparison

  lemma OptionsEqReflexive(o: Options)
    ensures OptionsEq(o, o)
  {
    forall k | k in o ensures ValueEq(o[k], o[k]) {
      match o[k] {
        case NoneValue =>
        case BoolValue(_) =>
        case IntValue(_) =>
        case StrValue(_) =>
      }
    }
  }

  lemma ValueEqSymmetric(x: Value, y: Value)
    ensures ValueEq(x, y) == ValueEq(y, x)
  {
  }

  lemma OptionsEqSymmetric(o1: Options, o2: Options)
    ensures OptionsEq(o1, o2) == OptionsEq(o2, o1)
  {
    forall k | k in o1 && k in o2 ensures ValueEq(o1[k], o2[k]) == ValueEq(o2[k], o1[k]) {
      ValueEqSymmetric(o1[k], o2[k]);
    }
  }

  /** A stamp compared with itself reports nothing. */
  lemma CompareWithItself(a: Stamp)
    ensures Comparison(a, a) == Report({}, {}, {}, {})
  {
    forall l | l in a.checkouts ensures !Mismatched(a, a, l) {
      OptionsEqReflexive(OptionsOf(a, l));
    }
  }

  /** Every checkout of either stamp is reported deleted exactly when only
      `a` holds it, and new exactly when only `b` does. */
  lemma DeletedOrNew(a: Stamp, b: Stamp, l: Label)
    requires l in AllLabels(a, b)
    ensures (exists e :: (l, e) in Comparison(a, b).deleted) <==> l in a.checkouts && l !in b.checkouts
    ensures (exists e :: (l, e) in Comparison(a, b).added) <==> l in b.checkouts && l !in a.checkouts
  {
    if l in a.checkouts && l !in b.checkouts {
      assert (l, a.checkouts[l]) in Comparison(a, b).deleted;
    }
    if l in b.checkouts && l !in a.checkouts {
      assert (l, b.checkouts[l]) in Comparison(a, b).added;
    }
  }

  /** A checkout that differs only by revision is reported as changed, with
      both revisions, and raises no problem. */
  lemma OnlyRevisionChanged(a: Stamp, b: Stamp, l: Label)
    requires l in a.checkouts && l in b.checkouts
    requires b.checkouts[l] == a.checkouts[l].(repo := a.checkouts[l].repo.(revision := b.checkouts[l].repo.revision))
    requires a.checkouts[l].repo.revision != b.checkouts[l].repo.revision
    requires OptionsEq(OptionsOf(a, l), OptionsOf(b, l))
    ensures (l, a.checkouts[l].repo.revision, b.checkouts[l].repo.revision) in Comparison(a, b).changed
    ensures forall text :: (l, text) !in Comparison(a, b).problems
  {
    assert !Mismatched(a, b, l);
  }

  /** Comparing the other way round swaps deleted and new, swaps the two
      revisions of each change, and finds the same problems. */
  lemma CompareSwapped(a: Stamp, b: Stamp)
    ensures Comparison(b, a).deleted == Comparison(a, b).added
    ensures Comparison(b, a).added == Comparison(a, b).deleted
    ensures Comparison(b, a).changed == set c | c in Comparison(a, b).changed :: (c.0, c.2, c.1)
    ensures Comparison(b, a).problems == Comparison(a, b).problems
  {
    assert AllLabels(b, a) == AllLabels(a, b);
    SwappedChanges(a, b, AllLabels(a, b));
    SwappedProblems(a, b, AllLabels(a, b));
  }

  lemma SwappedChanges(a: Stamp, b: Stamp, d: set<Label>)
    ensures ChangedAmong(b, a, d) == set c | c in ChangedAmong(a, b, d) :: (c.0, c.2, c.1)
  {
    var left := ChangedAmong(b, a, d);
    var right := set c | c in ChangedAmong(a, b, d) :: (c.0, c.2, c.1);
    forall c | c in left ensures c in right {
      assert (c.0, c.2, c.1) in ChangedAmong(a, b, d);
    }
  }

  lemma SwappedProblems(a: Stamp, b: Stamp, d: set<Label>)
    ensures ProblemsAmong(b, a, d) == ProblemsAmong(a, b, d)
  {
    forall l | l in a.checkouts && l in b.checkouts
      ensures MismatchesOf(b, a, l) == MismatchesOf(a, b, l)
    {
      OptionsEqSymmetric(OptionsOf(a, l), OptionsOf(b, l));
    }
  }
}
