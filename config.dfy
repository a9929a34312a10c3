/** The configuration store (the `CONFIG` dictionary): its JSON values, the
    built-in defaults, loading the user's file over them, the credential
    check that reads it and the `save_all` form that writes it. */
module Config {
  import opened Wrappers
  import opened Text

  /** A JSON value as `json.load` returns it (floating-point numbers and arrays are not modelled). */
  datatype Value =
    | Null
    | Bool(b: bool)
    | Int(i: int)
    | Str(s: string)
    | Obj(fields: map<string, Value>)

  /** `str(v)`, as used for the camera index: an integer's text reads back as
      the integer and is all digits exactly when it is not negative; a string is
      itself; no other value gives a text of digits. */
  function PyStr(v: Value): (s: string)
    ensures v.Int? ==> ParseInt(s) == Some(v.i) && (AllDigits(s) <==> v.i >= 0)
    ensures v.Str? ==> s == v.s
    ensures AllDigits(s) ==> v.Int? || v.Str?
  {
    match v
    case Null => NotDigits("None")
    case Bool(b) => NotDigits(if b then "True" else "False")
    case Int(i) => IntText(i)
    case Str(s) => s
    case Obj(_) => NotDigits("{...}")
  }

  /** A text that does not start with a digit, passed through. */
  function NotDigits(t: string): (s: string)
    requires t != [] && !IsDigit(t[0])
    ensures s == t && !AllDigits(s)
  {
    t
  }

  type Config = map<string, Value>

  const NameKey := "NOME_EQUIPAMENTO"
  const IndexKey := "CAMERA_INDEX"
  const WidthKey := "CAMERA_WIDTH"
  const HeightKey := "CAMERA_HEIGHT"
  const FpsKey := "CAMERA_FPS"
  const UsersKey := "USUARIOS"

  /** `DEFAULT_CONFIG`. */
  const Defaults: Config := map[
    NameKey := Str("VTSurgical - Transmiss\U{e3}o Cir\U{fa}rgica"),
    IndexKey := Int(0),
    WidthKey := Int(1280),
    HeightKey := Int(720),
    FpsKey := Int(30),
    "IP_BIND" := Str("0.0.0.0"),
    "IA_ENABLED" := Bool(true),
    "CPU_USAGE" := Int(0),
    "TEMP" := Int(0),
    UsersKey := Obj(map["hupe" := Obj(map["password" := Str("hupe@2.0"), "role" := Str("admin")])])
  ]

  /** Every key the defaults define is present. */
  ghost predicate Complete(cfg: Config)
  {
    Defaults.Keys <= cfg.Keys
  }

  /** The keys the camera code reads. */
  ghost predicate HasCameraKeys(cfg: Config)
  {
    IndexKey in cfg && WidthKey in cfg && HeightKey in cfg && FpsKey in cfg
  }

  lemma CompleteHasCameraKeys(cfg: Config)
    requires Complete(cfg)
    ensures HasCameraKeys(cfg)
  {
    assert IndexKey in Defaults && WidthKey in Defaults && HeightKey in Defaults && FpsKey in Defaults;
  }

  /** `dict.update`: the defaults with every key of `user` overriding. */
  function Merged(defaults: Config, user: Config): (r: Config)
    ensures r.Keys == defaults.Keys + user.Keys
    ensures forall k :: k in user ==> r[k] == user[k]
    ensures forall k :: k in defaults && k !in user ==> r[k] == defaults[k]
  {
    defaults + user
  }

  /** What reading `config.json` gave: no file, a file that could not be read or
      decoded as JSON, or the decoded document. */
  datatype ConfigFile = Absent | Unreadable | Document(doc: Value)

  /** The configuration `load_config` produces from a reading of the file. */
  function Loaded(file: ConfigFile): (r: Config)
    ensures Complete(r)
    ensures !(file.Document? && file.doc.Obj?) ==> r == Defaults
    ensures file.Document? && file.doc.Obj? ==>
      forall k :: k in r <==> k in Defaults || k in file.doc.fields
  {
    match file
    case Document(Obj(user)) => Merged(Defaults, user)
    case _ => Defaults
  }

  /** An object document overrides exactly its own keys and keeps every other default. */
  lemma LoadedOverrides(user: Config, k: string)
    ensures k in user ==> Loaded(Document(Obj(user)))[k] == user[k]
    ensures k !in user && k in Defaults ==> Loaded(Document(Obj(user)))[k] == Defaults[k]
  {
  }

  // ---------------------------------------------------------------------
  // Credentials

  datatype LoginOutcome = Granted | Denied | Fault

  /** The login check: the user must be a key of the user table and the stored
      password must equal the one given. `Fault` stands for the exceptions Python
      raises on the way: no user table; a table that is neither an object nor a
      string (`in` fails); a string table that contains the user name as a
      substring (indexing a string by a string fails); an account that is not an
      object or has no password. */
  function Authenticate(cfg: Config, u: string, p: string): (r: LoginOutcome)
    ensures r == Granted <==>
      && UsersKey in cfg && cfg[UsersKey].Obj? && u in cfg[UsersKey].fields
      && cfg[UsersKey].fields[u].Obj? && "password" in cfg[UsersKey].fields[u].fields
      && cfg[UsersKey].fields[u].fields["password"] == Str(p)
    ensures r == Fault <==>
      || UsersKey !in cfg
      || (!cfg[UsersKey].Obj? && !cfg[UsersKey].Str?)
      || (cfg[UsersKey].Str? && Occurs(u, cfg[UsersKey].s))
      || (&& cfg[UsersKey].Obj? && u in cfg[UsersKey].fields
          && !(cfg[UsersKey].fields[u].Obj? && "password" in cfg[UsersKey].fields[u].fields))
  {
    if UsersKey !in cfg then Fault
    else match cfg[UsersKey]
      case Obj(users) =>
        if u !in users then Denied
        else (match users[u]
          case Obj(account) =>
            if "password" !in account then Fault
            else if account["password"] == Str(p) then Granted
            else Denied
          case _ => Fault)
      case Str(text) => if Occurs(u, text) then Fault else Denied
      case _ => Fault
  }

  /** Every account of the user table is an object holding a password. */
  ghost predicate WellFormedUsers(cfg: Config)
  {
    && UsersKey in cfg && cfg[UsersKey].Obj?
    && forall u :: u in cfg[UsersKey].fields ==>
         cfg[UsersKey].fields[u].Obj? && "password" in cfg[UsersKey].fields[u].fields
  }

  /** Against a well-formed user table the check never fails, and grants exactly
      the known user with its stored password. */
  lemma {:induction false} LoginAgainstTable(cfg: Config, u: string, p: string)
    requires WellFormedUsers(cfg)
    ensures Authenticate(cfg, u, p) != Fault
    ensures Authenticate(cfg, u, p) == Granted <==>
      u in cfg[UsersKey].fields && cfg[UsersKey].fields[u].fields["password"] == Str(p)
  {
  }

  /** With the built-in configuration only `hupe` / `hupe@2.0` is let in. */
  lemma DefaultLogin(u: string, p: string)
    ensures Authenticate(Defaults, u, p) == if u == "hupe" && p == "hupe@2.0" then Granted else Denied
  {
    assert Defaults[UsersKey] == Obj(map["hupe" := Obj(map["password" := Str("hupe@2.0"), "role" := Str("admin")])]);
  }

  // ---------------------------------------------------------------------
  // The save_all form

  /** `"WxH".split("x")` read as `int(res[0]), int(res[1])`; `None` where Python raises. */
  function ParseResolution(text: string): Option<(int, int)>
  {
    var res := Split(text, 'x');
    if |res| < 2 then None
    else match (ParseInt(res[0]), ParseInt(res[1]))
      case (Some(w), Some(h)) => Some((w, h))
      case _ => None
  }

  lemma NoSeparatorInIntText(i: int)
    ensures 'x' !in IntText(i)
  {
    var s := IntText(i);
    var d := Decimal(if i < 0 then -i else i);
    assert forall j :: 0 <= j < |d| ==> d[j] != 'x';
    assert forall j :: 0 <= j < |s| ==> s[j] != 'x';
  }

  /** A resolution written as `str(w) + "x" + str(h)` reads back as `(w, h)`. */
  lemma ResolutionRoundTrip(w: int, h: int)
    ensures ParseResolution(IntText(w) + "x" + IntText(h)) == Some((w, h))
  {
    NoSeparatorInIntText(w);
    NoSeparatorInIntText(h);
    SplitTwo(IntText(w), IntText(h), 'x');
  }

  /** Whatever follows the second piece is ignored: `"1280x720x3"` and
      `"1280x720xaxb"` read as `(1280, 720)`. */
  lemma ResolutionIgnoresExtraPieces(w: int, h: int, extra: string)
    ensures ParseResolution(IntText(w) + "x" + IntText(h) + "x" + extra) == Some((w, h))
  {
    NoSeparatorInIntText(w);
    NoSeparatorInIntText(h);
    SplitTwoFirst(IntText(w), IntText(h), extra, 'x');
  }

  /** Splitting two pieces that hold no separator, joined by it. */
  lemma SplitTwo(a: string, b: string, sep: char)
    requires sep !in a && sep !in b
    ensures Split(a + [sep] + b, sep) == [a, b]
  {
    SplitAfterFirst(a, b, sep);
    SplitJoin([b], sep);
  }

  /** Splitting at two leading pieces that hold no separator. */
  lemma SplitTwoFirst(a: string, b: string, c: string, sep: char)
    requires sep !in a && sep !in b
    ensures var res := Split(a + [sep] + b + [sep] + c, sep); |res| >= 2 && res[0] == a && res[1] == b
  {
    SplitAfterFirst(b, c, sep);
    assert a + [sep] + b + [sep] + c == a + [sep] + (b + [sep] + c);
    SplitAfterFirst(a, b + [sep] + c, sep);
  }

  /** Splitting at a first piece that holds no separator. */
  lemma SplitAfterFirst(a: string, b: string, sep: char)
    requires sep !in a
    ensures Split(a + [sep] + b, sep) == [a] + Split(b, sep)
  {
    var s := a + [sep] + b;
    assert forall j :: 0 <= j < |a| ==> s[j] == a[j];
    assert s[|a|] == sep;
    assert IndexOf(s, sep) == |a|;
    assert s[..|a|] == a;
    assert s[|a| + 1..] == b;
  }

  /** Text without an `x` is rejected (Python's `IndexError` on `res[1]`). */
  lemma ResolutionNeedsSeparator(text: string)
    requires 'x' !in text
    ensures ParseResolution(text) == None
  {
    assert IndexOf(text, 'x') == |text|;
  }

  /** A numeric form field read with `int()`, or the default when the field is
      missing; `None` where `int()` raises. */
  function FormInt(form: map<string, string>, key: string, default: int): Option<int>
  {
    if key in form then ParseInt(form[key]) else Some(default)
  }

  /** The resolution field, `1280x720` when it is missing, read as width and height. */
  function FormResolution(form: map<string, string>): Option<(int, int)>
  {
    ParseResolution(if "camera_resolution" in form then form["camera_resolution"] else "1280x720")
  }

  /** The equipment-name field: `None` when it is missing. */
  function FormName(form: map<string, string>): Value
  {
    if "nome_equipamento" in form then Str(form["nome_equipamento"]) else Null
  }

  /** The dictionary after the `save_all` assignments, given what each form
      field read as, run in source order until the first one that raises, and
      whether all of them ran. */
  ghost function Assigned(cfg: Config, name: Value, index: Option<int>,
                          res: Option<(int, int)>, fps: Option<int>): (Config, bool)
  {
    var named := cfg[NameKey := name];
    match index
    case None => (named, false)
    case Some(i) =>
      var indexed := named[IndexKey := Int(i)];
      match res
      case None => (indexed, false)
      case Some((w, h)) =>
        var sized := indexed[WidthKey := Int(w)][HeightKey := Int(h)];
        match fps
        case None => (sized, false)
        case Some(f) => (sized[FpsKey := Int(f)], true)
  }

  /** The `save_all` assignments applied to a submitted form. */
  ghost function SaveAllEffect(cfg: Config, form: map<string, string>): (Config, bool)
  {
    Assigned(cfg, FormName(form), FormInt(form, "camera_index", 0), FormResolution(form),
             FormInt(form, "camera_fps", 30))
  }

  /** Saving writes only the five camera-form keys and keeps every key present. */
  lemma SaveAllFrame(cfg: Config, name: Value, index: Option<int>, res: Option<(int, int)>,
                     fps: Option<int>, k: string)
    requires k != NameKey && k != IndexKey && k != WidthKey && k != HeightKey && k != FpsKey
    ensures k in Assigned(cfg, name, index, res, fps).0 <==> k in cfg
    ensures k in cfg ==> Assigned(cfg, name, index, res, fps).0[k] == cfg[k]
    ensures Complete(cfg) ==> Complete(Assigned(cfg, name, index, res, fps).0)
  {
  }

  /** The equipment name is written even when a later field is malformed, and
      all is saved exactly when every field parsed. */
  lemma SaveAllWritesNameFirst(cfg: Config, name: Value, index: Option<int>,
                               res: Option<(int, int)>, fps: Option<int>)
    ensures Assigned(cfg, name, index, res, fps).0[NameKey] == name
    ensures Assigned(cfg, name, index, res, fps).1 <==> index.Some? && res.Some? && fps.Some?
  {
  }

  /** A form without an `x` in its resolution fails after writing the name and
      the index, and leaves the width, height and frame rate as they were. */
  lemma SaveAllBadResolution(cfg: Config, form: map<string, string>, index: int)
    requires "camera_index" in form && form["camera_index"] == IntText(index)
    requires "camera_resolution" in form && 'x' !in form["camera_resolution"]
    ensures !SaveAllEffect(cfg, form).1
    ensures SaveAllEffect(cfg, form).0 == cfg[NameKey := FormName(form)][IndexKey := Int(index)]
  {
    ResolutionNeedsSeparator(form["camera_resolution"]);
    assert FormInt(form, "camera_index", 0) == Some(index);
    assert FormResolution(form) == None;
  }

  lemma FormIntText(form: map<string, string>, key: string, default: int, i: int)
    requires key in form && form[key] == IntText(i)
    ensures FormInt(form, key, default) == Some(i)
  {
  }

  /** A form holding numbers written the usual way is saved whole, value for value. */
  lemma SaveAllWellFormed(cfg: Config, form: map<string, string>, index: int, w: int, h: int, fps: int)
    requires "camera_index" in form && form["camera_index"] == IntText(index)
    requires "camera_resolution" in form && form["camera_resolution"] == IntText(w) + "x" + IntText(h)
    requires "camera_fps" in form && form["camera_fps"] == IntText(fps)
    ensures SaveAllEffect(cfg, form) ==
      (cfg[NameKey := FormName(form)][IndexKey := Int(index)][WidthKey := Int(w)]
          [HeightKey := Int(h)][FpsKey := Int(fps)], true)
  {
    FormIntText(form, "camera_index", 0, index);
    FormIntText(form, "camera_fps", 30, fps);
    ResolutionRoundTrip(w, h);
  }

  /** The `CONFIG` dictionary, updated in place. */
  class Settings {
    var entries: Config

    /** `DEFAULT_CONFIG.copy()`. */
    constructor ()
      ensures entries == Defaults
    {
      entries := Defaults;
    }

    /** `load_config`: start from the defaults and `update` them with the keys of
        the user's file when it holds a JSON object; any failure keeps the defaults. */
    method Load(file: ConfigFile)
      modifies this
      ensures entries == Loaded(file)
    {
      entries := Defaults;
      match file {
        case Document(Obj(user)) => entries := entries + user;  // `CONFIG.update(user_conf)`
        case _ =>  // no file, or the read or the update raised
      }
    }

    /** The `save_all` branch of the configuration form: `ok` is false where a
        field raises, after the assignments before it have been made. */
    method SaveAll(form: map<string, string>) returns (ok: bool)
      modifies this
      ensures (entries, ok) == SaveAllEffect(old(entries), form)
    {
      entries := entries[NameKey := FormName(form)];
      var index := FormInt(form, "camera_index", 0);
      if index.None? {
        return false;
      }
      entries := entries[IndexKey := Int(index.value)];
      var res := FormResolution(form);
      if res.None? {
        return false;
      }
      var (w, h) := res.value;
      entries := entries[WidthKey := Int(w)][HeightKey := Int(h)];
      var fps := FormInt(form, "camera_fps", 30);
      if fps.None? {
        return false;
      }
      entries := entries[FpsKey := Int(fps.value)];
      ok := true;
    }
  }
}
