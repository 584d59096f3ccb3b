/** The user configuration of src/utils/config.ts: a record with a default
    template and a nested project object, loaded by a shallow merge over a
    module-wide default record and updated in place by the setters. The nested
    project object is shared by reference wherever the source shares it, so the
    aliasing between the live configuration and the defaults is part of the model. */
module Config {
  import opened Prelude

  /** The nested `project` object. */
  class Project {
    var author: string
    var license: string

    constructor (author: string, license: string)
      ensures this.author == author && this.license == license
    {
      this.author := author;
      this.license := license;
    }
  }

  /** A `Config` record; its `project` field holds a reference. */
  class ConfigRecord {
    var defaultTemplate: string
    var project: Project

    constructor (defaultTemplate: string, project: Project)
      ensures this.defaultTemplate == defaultTemplate && this.project == project
    {
      this.defaultTemplate := defaultTemplate;
      this.project := project;
    }
  }

  const DefaultTemplate: string := "react-ts"
  const DefaultAuthor: string := "Your Name"
  const DefaultLicense: string := "MIT"

  /** Builds DEFAULT_CONFIG, the one record every manager copies from. */
  method NewDefaultConfig() returns (c: ConfigRecord)
    ensures fresh(c) && fresh(c.project)
    ensures c.defaultTemplate == DefaultTemplate
    ensures c.project.author == DefaultAuthor && c.project.license == DefaultLicense
  {
    var project := new Project(DefaultAuthor, DefaultLicense);
    c := new ConfigRecord(DefaultTemplate, project);
  }

  /** A project object as the configuration file spells it. */
  datatype ProjectValue = ProjectValue(author: string, license: string)

  /** What reading the configuration file yields: no file, a file that cannot be
      read or parsed, or the top-level keys it sets. */
  datatype ConfigFile =
    | Missing
    | Unreadable
    | Parsed(defaultTemplate: Option<string>, project: Option<ProjectValue>)

  /** The configuration manager. `defaults` is DEFAULT_CONFIG, shared by all. */
  class ConfigManager {
    var config: ConfigRecord
    const defaults: ConfigRecord

    /** The live record is always a copy of the defaults' top level, never the
        defaults themselves, so the default template is never overwritten. */
    ghost predicate Valid()
      reads this, defaults
    {
      config != defaults && defaults.defaultTemplate == DefaultTemplate
    }

    /** loadConfig: `{ ...DEFAULT_CONFIG, ...configData }`, or a copy of the
        defaults when there is no readable file. A top-level key in the file
        replaces the default's; a `project` key replaces the whole project. */
    constructor (file: ConfigFile, defaults: ConfigRecord)
      requires defaults.defaultTemplate == DefaultTemplate
      ensures Valid() && this.defaults == defaults && fresh(config)
      ensures config.defaultTemplate ==
        if file.Parsed? && file.defaultTemplate.Some? then file.defaultTemplate.value else DefaultTemplate
      ensures file.Parsed? && file.project.Some? ==>
        fresh(config.project)
        && config.project.author == file.project.value.author
        && config.project.license == file.project.value.license
      ensures !(file.Parsed? && file.project.Some?) ==> config.project == defaults.project
    {
      this.defaults := defaults;
      var template := defaults.defaultTemplate;
      var project := defaults.project;
      if file.Parsed? {
        if file.defaultTemplate.Some? {
          template := file.defaultTemplate.value;
        }
        if file.project.Some? {
          project := new Project(file.project.value.author, file.project.value.license);
        }
      }
      config := new ConfigRecord(template, project);
    }

    /** getConfig: a new top-level record whose `project` is the manager's own object. */
    method GetConfig() returns (c: ConfigRecord)
      requires Valid()
      ensures fresh(c) && c.defaultTemplate == config.defaultTemplate && c.project == config.project
    {
      c := new ConfigRecord(config.defaultTemplate, config.project);
    }

    /** getDefaultTemplate. */
    method GetDefaultTemplate() returns (t: string)
      ensures t == config.defaultTemplate
    {
      t := config.defaultTemplate;
    }

    /** setDefaultTemplate: only the template changes. */
    method SetDefaultTemplate(template: string)
      requires Valid()
      modifies config
      ensures Valid() && config == old(config)
      ensures config.defaultTemplate == template
      ensures config.project == old(config.project)
      ensures unchanged(config.project)
    {
      config.defaultTemplate := template;
    }

    /** setAuthor: only the author of the current project object changes. That
        object may be the defaults' own. */
    method SetAuthor(author: string)
      requires Valid()
      modifies config.project
      ensures Valid() && config == old(config) && config.project == old(config.project)
      ensures config.defaultTemplate == old(config.defaultTemplate)
      ensures config.project.author == author
      ensures config.project.license == old(config.project.license)
    {
      config.project.author := author;
    }

    /** setLicense: only the license of the current project object changes. */
    method SetLicense(license: string)
      requires Valid()
      modifies config.project
      ensures Valid() && config == old(config) && config.project == old(config.project)
      ensures config.defaultTemplate == old(config.defaultTemplate)
      ensures config.project.license == license
      ensures config.project.author == old(config.project.author)
    {
      config.project.license := license;
    }

    /** resetConfig as written: `{ ...DEFAULT_CONFIG }` copies the top level only,
        so the template is restored but the project is the defaults' object,
        with whatever was written into it. */
    method ResetConfig()
      requires Valid()
      modifies this
      ensures Valid() && fresh(config)
      ensures config.defaultTemplate == DefaultTemplate
      ensures config.project == defaults.project
      ensures unchanged(defaults.project)
    {
      config := new ConfigRecord(defaults.defaultTemplate, defaults.project);
    }

    /** A reset that restores every field: a fresh record with a fresh project
        built from the default constants. */
    method ResetToDefaults()
      requires Valid()
      modifies this
      ensures Valid() && fresh(config) && fresh(config.project)
      ensures config.defaultTemplate == DefaultTemplate
      ensures config.project.author == DefaultAuthor && config.project.license == DefaultLicense
      ensures unchanged(defaults.project)
    {
      var project := new Project(DefaultAuthor, DefaultLicense);
      config := new ConfigRecord(DefaultTemplate, project);
    }
  }

  /** With no configuration file, setting the author and then resetting leaves
      the author that was set: the write went into the defaults' project, which
      the reset copies back. */
  method AuthorAfterResetAsWritten(author: string) returns (after: string)
    ensures after == author
  {
    var defaults := NewDefaultConfig();
    var manager := new ConfigManager(Missing, defaults);
    manager.SetAuthor(author);
    manager.ResetConfig();
    after := manager.config.project.author;
  }

  /** The same sequence with the full reset gives back the default author. */
  method AuthorAfterReset(author: string) returns (after: string)
    ensures after == DefaultAuthor
  {
    var defaults := NewDefaultConfig();
    var manager := new ConfigManager(Missing, defaults);
    manager.SetAuthor(author);
    manager.ResetToDefaults();
    after := manager.config.project.author;
  }

  /** A project key in the file protects the defaults: setting the author and
      resetting then gives back the default author even with the shallow reset. */
  method AuthorAfterResetWithFileProject(author: string, fileProject: ProjectValue) returns (after: string)
    ensures after == DefaultAuthor
  {
    var defaults := NewDefaultConfig();
    var manager := new ConfigManager(Parsed(None, Some(fileProject)), defaults);
    manager.SetAuthor(author);
    manager.ResetConfig();
    after := manager.config.project.author;
  }
}
