/**
 * The settings store of `config.py`: an INI file held as a map from section
 * names to option maps, with the defaults backfilled on load.
 */
module Settings {
  import opened Wrappers

  type Options = map<string, string>
  type Sections = map<string, Options>

  /** One section of the defaults, options in the order they are written. */
  datatype Section = Section(name: string, options: seq<(string, string)>)

  /** `configparser`'s lookup errors. */
  datatype LookupError = NoSectionError | NoOptionError

  /** No option name appears twice in one section of defaults. */
  predicate UniqueKeys(options: seq<(string, string)>)
  {
    forall i, j :: 0 <= i < j < |options| ==> options[i].0 != options[j].0
  }

  /** Section names are distinct, and so are the option names within each section. */
  predicate WellFormed(defaults: seq<Section>)
  {
    && (forall i, j :: 0 <= i < j < |defaults| ==> defaults[i].name != defaults[j].name)
    && (forall i :: 0 <= i < |defaults| ==> UniqueKeys(defaults[i].options))
  }

  /** The option map a section of defaults becomes (`str` of every value). */
  function OptionsOf(options: seq<(string, string)>): (r: Options)
    ensures forall i :: 0 <= i < |options| ==> options[i].0 in r
    ensures forall k :: k in r ==> exists i :: 0 <= i < |options| && options[i].0 == k
    ensures UniqueKeys(options) ==> forall i :: 0 <= i < |options| ==> r[options[i].0] == options[i].1
    decreases |options|
  {
    if options == [] then map[]
    else
      var (key, value) := options[|options| - 1];
      OptionsOf(options[..|options| - 1])[key := value]
  }

  /** `defaultValues`: four sections; the integer and boolean defaults appear
      as the strings `configparser` stores them as. */
  function DefaultValues(): (r: seq<Section>)
    ensures |r| == 4
    ensures WellFormed(r)
  {
    [ Section("GENERAL", [("kaomoji_set", "kaomojis.json"), ("default_tab", "0"),
                          ("launch_at_startup", "False"), ("clear_search_entry_upon_inserting", "False")]),
      Section("APPEARANCE", [("theme", "0"), ("font", ""), ("font_color", "#FFFFFF")]),
      Section("MISCELLANEOUS", [("show_sound", ""), ("hide_sound", "")]),
      Section("KEYBINDS", [("show_window", ""), ("hide_window", ""), ("previous_page", ""), ("next_page", "")]) ]
  }

  /** Every section and option of the defaults is present. */
  predicate Complete(config: Sections, defaults: seq<Section>)
  {
    forall i :: 0 <= i < |defaults| ==>
      && defaults[i].name in config
      && forall j :: 0 <= j < |defaults[i].options| ==> defaults[i].options[j].0 in config[defaults[i].name]
  }

  /** `after` keeps every section and option of `before`, with its value. */
  predicate Extends(after: Sections, before: Sections)
  {
    forall s :: s in before ==>
      && s in after
      && forall o :: o in before[s] ==> o in after[s] && after[s][o] == before[s][o]
  }

  /** The inner loop of `load`: add each missing option of one section. */
  function BackfillOptions(options: Options, defaults: seq<(string, string)>): Options
    decreases |defaults|
  {
    if defaults == [] then options
    else
      var sofar := BackfillOptions(options, defaults[..|defaults| - 1]);
      var (key, value) := defaults[|defaults| - 1];
      if key in sofar then sofar else sofar[key := value]
  }

  /** The outer loop of `load`: add each missing section whole, and backfill the others. */
  function Backfill(config: Sections, defaults: seq<Section>): Sections
    decreases |defaults|
  {
    if defaults == [] then config
    else
      var sofar := Backfill(config, defaults[..|defaults| - 1]);
      var section := defaults[|defaults| - 1];
      if section.name !in sofar then sofar[section.name := OptionsOf(section.options)]
      else sofar[section.name := BackfillOptions(sofar[section.name], section.options)]
  }

  lemma {:induction false} BackfillOptionsAdds(options: Options, defaults: seq<(string, string)>)
    ensures var r := BackfillOptions(options, defaults);
            && (forall j :: 0 <= j < |defaults| ==> defaults[j].0 in r)
            && (forall o :: o in options ==> o in r && r[o] == options[o])
            && (forall o :: o in r && o !in options ==> exists j :: 0 <= j < |defaults| && defaults[j].0 == o)
    decreases |defaults|
  {
    if defaults != [] {
      var init := defaults[..|defaults| - 1];
      BackfillOptionsAdds(options, init);
      assert forall j :: 0 <= j < |init| ==> init[j] == defaults[j];
    }
  }

  /** An option the section lacked gets its default value. */
  lemma {:induction false} BackfillOptionsValues(options: Options, defaults: seq<(string, string)>)
    requires UniqueKeys(defaults)
    ensures var r := BackfillOptions(options, defaults);
            forall j :: 0 <= j < |defaults| && defaults[j].0 !in options ==>
              defaults[j].0 in r && r[defaults[j].0] == defaults[j].1
    decreases |defaults|
  {
    if defaults != [] {
      var init := defaults[..|defaults| - 1];
      BackfillOptionsValues(options, init);
      BackfillOptionsAdds(options, init);
      assert forall j :: 0 <= j < |init| ==> init[j] == defaults[j];
      var sofar := BackfillOptions(options, init);
      var last := defaults[|defaults| - 1];
      if last.0 !in options {
        assert last.0 !in sofar;
      }
    }
  }

  /** After `load`, every default section and option is present. */
  lemma {:induction false} BackfillCompletes(config: Sections, defaults: seq<Section>)
    ensures Complete(Backfill(config, defaults), defaults)
    decreases |defaults|
  {
    if defaults != [] {
      var init := defaults[..|defaults| - 1];
      var section := defaults[|defaults| - 1];
      BackfillCompletes(config, init);
      var sofar := Backfill(config, init);
      if section.name in sofar {
        BackfillOptionsAdds(sofar[section.name], section.options);
      }
      assert forall i :: 0 <= i < |init| ==> init[i] == defaults[i];
    }
  }

  /** `load` never overwrites an option the file has, and drops nothing. */
  lemma {:induction false} BackfillExtends(config: Sections, defaults: seq<Section>)
    ensures Extends(Backfill(config, defaults), config)
    decreases |defaults|
  {
    if defaults != [] {
      var init := defaults[..|defaults| - 1];
      var section := defaults[|defaults| - 1];
      BackfillExtends(config, init);
      var sofar := Backfill(config, init);
      if section.name in sofar {
        BackfillOptionsAdds(sofar[section.name], section.options);
      }
    }
  }

  /** Sections outside the defaults are left exactly as the file has them, and within
      a default section only default options are added. */
  lemma {:induction false} BackfillOnlyDefaults(config: Sections, defaults: seq<Section>)
    ensures var r := Backfill(config, defaults);
            && (forall s :: s in r && s !in config ==> exists i :: 0 <= i < |defaults| && defaults[i].name == s)
            && (forall s :: s in config && (forall i :: 0 <= i < |defaults| ==> defaults[i].name != s) ==>
                  s in r && r[s] == config[s])
            && (forall s, o :: s in r && o in r[s] && !(s in config && o in config[s]) ==>
                  exists i, j :: 0 <= i < |defaults| && defaults[i].name == s &&
                                 0 <= j < |defaults[i].options| && defaults[i].options[j].0 == o)
    decreases |defaults|
  {
    if defaults != [] {
      var init := defaults[..|defaults| - 1];
      var last := |defaults| - 1;
      var section := defaults[last];
      BackfillOnlyDefaults(config, init);
      BackfillExtends(config, init);
      assert forall i :: 0 <= i < |init| ==> init[i] == defaults[i];
      var sofar := Backfill(config, init);
      var r := Backfill(config, defaults);
      if section.name in sofar {
        BackfillOptionsAdds(sofar[section.name], section.options);
      }
      forall s, o | s in r && o in r[s] && !(s in config && o in config[s])
        ensures exists i, j :: 0 <= i < |defaults| && defaults[i].name == s &&
                               0 <= j < |defaults[i].options| && defaults[i].options[j].0 == o
      {
        if s == section.name && !(s in sofar && o in sofar[s]) {
          var j :| 0 <= j < |section.options| && section.options[j].0 == o;
          assert defaults[last].options[j].0 == o;
        } else {
          assert s in sofar && o in sofar[s];
          var i, j :| 0 <= i < |init| && init[i].name == s &&
                      0 <= j < |init[i].options| && init[i].options[j].0 == o;
          assert defaults[i].options[j].0 == o;
        }
      }
    }
  }

  /** An option missing from section `name` of `config` holds `option.1` in `r`. */
  predicate FilledWithDefault(r: Sections, config: Sections, name: string, option: (string, string))
  {
    !(name in config && option.0 in config[name]) ==>
      name in r && option.0 in r[name] && r[name][option.0] == option.1
  }

  /** One option of one default section that the file lacked holds its default value after `load`. */
  lemma {:induction false} BackfillValueAt(config: Sections, defaults: seq<Section>, i: nat, j: nat)
    requires WellFormed(defaults)
    requires i < |defaults| && j < |defaults[i].options|
    ensures FilledWithDefault(Backfill(config, defaults), config, defaults[i].name, defaults[i].options[j])
    decreases |defaults|
  {
    var init := defaults[..|defaults| - 1];
    var section := defaults[|defaults| - 1];
    var sofar := Backfill(config, init);
    if defaults[i].name in config && defaults[i].options[j].0 in config[defaults[i].name] {
    } else if i < |init| {
      assert init[i] == defaults[i];
      assert WellFormed(init) by {
        assert forall k :: 0 <= k < |init| ==> init[k] == defaults[k];
      }
      BackfillValueAt(config, init, i, j);
      assert defaults[i].name != section.name;
    } else if section.name in sofar {
      assert forall k :: 0 <= k < |init| ==> init[k].name != section.name by {
        assert forall k :: 0 <= k < |init| ==> init[k] == defaults[k];
      }
      BackfillOnlyDefaults(config, init);
      assert sofar[section.name] == config[section.name];
      BackfillOptionsValues(sofar[section.name], section.options);
    }
  }

  /** Every section and option the file lacked holds its default value after `load`. */
  lemma BackfillValues(config: Sections, defaults: seq<Section>)
    requires WellFormed(defaults)
    ensures forall i, j :: 0 <= i < |defaults| && 0 <= j < |defaults[i].options| ==>
              FilledWithDefault(Backfill(config, defaults), config, defaults[i].name, defaults[i].options[j])
  {
    forall i, j | 0 <= i < |defaults| && 0 <= j < |defaults[i].options|
      ensures FilledWithDefault(Backfill(config, defaults), config, defaults[i].name, defaults[i].options[j])
    {
      BackfillValueAt(config, defaults, i, j);
    }
  }

  /** A file that already has every default is left as it is. */
  lemma {:induction false} BackfillKeepsComplete(config: Sections, defaults: seq<Section>)
    requires Complete(config, defaults)
    ensures Backfill(config, defaults) == config
    decreases |defaults|
  {
    if defaults != [] {
      var init := defaults[..|defaults| - 1];
      var section := defaults[|defaults| - 1];
      assert Complete(config, init) by {
        assert forall i :: 0 <= i < |init| ==> init[i] == defaults[i];
      }
      BackfillKeepsComplete(config, init);
      OptionsPresentUnchanged(config[section.name], section.options);
    }
  }

  lemma {:induction false} OptionsPresentUnchanged(options: Options, defaults: seq<(string, string)>)
    requires forall j :: 0 <= j < |defaults| ==> defaults[j].0 in options
    ensures BackfillOptions(options, defaults) == options
    decreases |defaults|
  {
    if defaults != [] {
      OptionsPresentUnchanged(options, defaults[..|defaults| - 1]);
    }
  }

  /** `load` changes the configuration exactly when a default section or option was missing. */
  lemma BackfillChangesIffIncomplete(config: Sections, defaults: seq<Section>)
    ensures Backfill(config, defaults) != config <==> !Complete(config, defaults)
  {
    BackfillCompletes(config, defaults);
    if Complete(config, defaults) {
      BackfillKeepsComplete(config, defaults);
    }
  }

  /** `ConfigParser.get`: the value, or the error it raises. */
  function Get(config: Sections, section: string, key: string): (r: Result<string, LookupError>)
    ensures r.Success? <==> section in config && key in config[section]
    ensures r.Success? ==> r.value == config[section][key]
    ensures r == Failure(NoSectionError) <==> section !in config
  {
    if section !in config then Failure(NoSectionError)
    else if key !in config[section] then Failure(NoOptionError)
    else Success(config[section][key])
  }

  /** The in-memory part of `set`: add the section if it is missing, then store the value. */
  function SetOption(config: Sections, section: string, key: string, value: string): Sections
  {
    var options := if section in config then config[section] else map[];
    config[section := options[key := value]]
  }

  /** After `set`, `get` returns the stored value; every other option reads as before,
      except that a new section turns "no section" into "no option" for its other keys. */
  lemma GetAfterSet(config: Sections, section: string, key: string, value: string, s: string, k: string)
    ensures Get(SetOption(config, section, key, value), section, key) == Success(value)
    ensures s != section ==> Get(SetOption(config, section, key, value), s, k) == Get(config, s, k)
    ensures s == section && k != key ==>
              Get(SetOption(config, section, key, value), s, k) ==
              (if section in config then Get(config, s, k) else Failure(NoOptionError))
  {
  }

  /** Adding a section or an option that is missing keeps what the file had and changes the store. */
  lemma AddSectionStep(config: Sections, parsed: Sections, name: string, options: Options)
    requires Extends(config, parsed) && name !in config
    ensures Extends(config[name := options], parsed) && config[name := options] != parsed
  {
    assert name !in parsed;
  }

  lemma AddOptionStep(config: Sections, parsed: Sections, name: string, option: string, value: string)
    requires Extends(config, parsed) && name in config && option !in config[name]
    ensures var after := config[name := config[name][option := value]];
            Extends(after, parsed) && after != parsed
  {
    var after := config[name := config[name][option := value]];
    assert option in after[name];
    assert name in parsed ==> option !in parsed[name];
  }

  lemma BackfillStep(config: Sections, defaults: seq<Section>, i: nat)
    requires i < |defaults|
    ensures var sofar := Backfill(config, defaults[..i]);
            var section := defaults[i];
            Backfill(config, defaults[..i + 1]) ==
              if section.name !in sofar then sofar[section.name := OptionsOf(section.options)]
              else sofar[section.name := BackfillOptions(sofar[section.name], section.options)]
  {
    assert defaults[..i + 1][..i] == defaults[..i];
  }

  lemma BackfillOptionsStep(options: Options, defaults: seq<(string, string)>, j: nat)
    requires j < |defaults|
    ensures var sofar := BackfillOptions(options, defaults[..j]);
            BackfillOptions(options, defaults[..j + 1]) ==
              if defaults[j].0 in sofar then sofar else sofar[defaults[j].0 := defaults[j].1]
  {
    assert defaults[..j + 1][..j] == defaults[..j];
  }

  /** Backfilling part of one section of a store that keeps what the file had
      still keeps it. */
  lemma PartialSectionExtends(before: Sections, parsed: Sections, name: string, defaults: seq<(string, string)>)
    requires Extends(before, parsed) && name in before
    ensures Extends(before[name := BackfillOptions(before[name], defaults)], parsed)
  {
    BackfillOptionsAdds(before[name], defaults);
  }

  /** Two stores that each keep all of the other are equal. */
  lemma ExtendsAntisymmetric(a: Sections, b: Sections)
    requires Extends(a, b) && Extends(b, a)
    ensures a == b
  {
    assert a.Keys == b.Keys;
    forall s | s in a ensures a[s] == b[s] {
      assert a[s].Keys == b[s].Keys;
    }
  }

  /** Growing a store that already differs from the file keeps it different. */
  lemma ExtendsStrict(a: Sections, b: Sections, c: Sections)
    requires Extends(a, b) && Extends(b, c) && b != c
    ensures a != c
  {
    if a == c {
      ExtendsAntisymmetric(b, c);
    }
  }

  class Config {
    const filename: string
    /** The parser's sections. */
    var config: Sections

    /** `__init__`: an existing file is loaded and backfilled; otherwise the store
        starts empty (the empty file written then is left out). */
    constructor (filename: string, fileExists: bool, parsed: Sections)
      ensures this.filename == filename
      ensures fileExists ==> config == Backfill(parsed, DefaultValues())
      ensures !fileExists ==> config == map[]
    {
      this.filename := filename;
      config := map[];
      new;
      if fileExists {
        var _ := Load(parsed);
      }
    }

    /** `load`, given what `configparser.read` parsed from the file. The flag
        `write_needed` is returned. */
    method Load(parsed: Sections) returns (writeNeeded: bool)
      modifies this
      ensures config == Backfill(parsed, DefaultValues())
      ensures writeNeeded <==> config != parsed
    {
      writeNeeded := false;
      config := parsed;
      var defaults := DefaultValues();
      var i := 0;
      while i < |defaults|
        invariant 0 <= i <= |defaults|
        invariant config == Backfill(parsed, defaults[..i])
        invariant writeNeeded <==> config != parsed
      {
        var section := defaults[i];
        BackfillStep(parsed, defaults, i);
        BackfillExtends(parsed, defaults[..i]);
        if section.name !in config {
          AddSectionStep(config, parsed, section.name, OptionsOf(section.options));
          config := config[section.name := OptionsOf(section.options)];
          writeNeeded := true;
        } else {
          ghost var before := config;
          var added := BackfillSection(section);
          PartialSectionExtends(before, before, section.name, section.options);
          if writeNeeded {
            ExtendsStrict(config, before, parsed);
          }
          writeNeeded := writeNeeded || added;
        }
        i := i + 1;
      }
      assert defaults[..|defaults|] == defaults;
    }

    /** The inner loop of `load`, for a default section the file has: add each
        missing option; `added` tells whether any was. */
    method BackfillSection(section: Section) returns (added: bool)
      requires section.name in config
      modifies this
      ensures config == old(config)[section.name := BackfillOptions(old(config)[section.name], section.options)]
      ensures added <==> config != old(config)
    {
      added := false;
      ghost var before := config;
      var j := 0;
      while j < |section.options|
        invariant 0 <= j <= |section.options|
        invariant config == before[section.name := BackfillOptions(before[section.name], section.options[..j])]
        invariant added <==> config != before
      {
        var (option, value) := section.options[j];
        BackfillOptionsStep(before[section.name], section.options, j);
        if option !in config[section.name] {
          PartialSectionExtends(before, before, section.name, section.options[..j]);
          AddOptionStep(config, before, section.name, option, value);
          config := config[section.name := config[section.name][option := value]];
          added := true;
        }
        j := j + 1;
      }
      assert section.options[..|section.options|] == section.options;
    }

    /** `set` without the file write that follows it. */
    method Set(section: string, key: string, value: string)
      modifies this
      ensures config == SetOption(old(config), section, key, value)
    {
      if section !in config {
        config := config[section := map[]];
      }
      config := config[section := config[section][key := value]];
    }
  }
}
