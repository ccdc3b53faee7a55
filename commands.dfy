/**
 * What `$.fn.streamRotate(methodOrOpts, ...)` is called with, the settings
 * `init` derives from its options argument, and which method a call selects.
 */
module Commands {
  import opened Wrappers

  /**
   * The options object. A key that is absent or `undefined` is `None`
   * (jQuery's `$.extend` skips `undefined`); a `null` selector is `None` too,
   * and a `null` speed is `Some(0)`, as both are falsy where they are tested.
   */
  datatype Options = Options(selector: Option<string>, autoRotateSpeed: Option<int>, height: Option<int>)

  /**
   * A JavaScript value passed to the plugin, as far as the plugin tells values
   * apart: `Falsy` is undefined, null, false, 0 or NaN (the empty string is the
   * falsy `Str("")`); `Obj` a plain object; `Other` any other truthy value
   * (a number, `true`, an array, a function), with `key` its conversion to a
   * string, which is also the property name `methods[...]` looks up.
   */
  datatype Arg = Falsy | Str(s: string) | Obj(options: Options) | Other(key: string)

  /** The per-instance settings `data.s`. */
  datatype Settings = Settings(autoRotateSpeed: int, height: int, selector: Option<string>)

  /** The one method the plugin exposes by name. */
  datatype Command = Init(opts: Arg)

  /** JavaScript truthiness of an argument. */
  predicate Truthy(a: Arg)
  {
    match a
    case Falsy => false
    case Str(s) => s != ""
    case Obj(_) => true
    case Other(_) => true
  }

  /** Whether `methods[a]` finds a method: only the key "init" does. */
  predicate NamesInit(a: Arg)
  {
    (a.Str? && a.s == "init") || (a.Other? && a.key == "init")
  }

  /** The text `['The method ', a, ' does not exist'].join('')` inserts for a string or other value. */
  function Key(a: Arg): string
  {
    match a
    case Str(s) => s
    case Other(k) => k
    case _ => ""
  }

  const Defaults := Settings(0, 0, None)

  /**
   * The settings of a new instance: `opts || {}` merged over the defaults
   * (speed 0, height 0, no selector) by `$.extend`. Only a plain object has
   * keys that can override a default; a string, array or number does not.
   */
  function Extend(opts: Arg): (s: Settings)
    ensures !opts.Obj? ==> s == Defaults
    ensures opts.Obj? ==>
      && s.selector == opts.options.selector
      && s.autoRotateSpeed == (if opts.options.autoRotateSpeed.Some? then opts.options.autoRotateSpeed.value else Defaults.autoRotateSpeed)
      && s.height == (if opts.options.height.Some? then opts.options.height.value else Defaults.height)
  {
    match opts
    case Obj(o) =>
      Settings(
        match o.autoRotateSpeed case Some(v) => v case None => 0,
        match o.height case Some(v) => v case None => 0,
        o.selector)
    case _ => Defaults
  }

  /** `opts = opts || {}`: a falsy options argument configures as an empty object does. */
  lemma FalsyIsEmptyObject()
    ensures Extend(Falsy) == Extend(Obj(Options(None, None, None)))
    ensures Extend(Str("")) == Extend(Obj(Options(None, None, None)))
  {
  }

  /** `!data.s.selector` is false: a selector is present and non-empty. */
  predicate SelectorOk(s: Settings)
  {
    s.selector.Some? && s.selector.value != ""
  }

  /**
   * The dispatch rule of `$.fn.streamRotate`: a method name selects that method
   * with the remaining arguments; otherwise a plain object or a falsy first
   * argument (none at all included) selects `init` with the whole argument
   * list; anything else is an error naming the argument.
   */
  function Dispatch(args: seq<Arg>): (r: Result<Command, string>)
    ensures var first := if args == [] then Falsy else args[0];
      && (r.Err? <==> Truthy(first) && !first.Obj? && !NamesInit(first))
      && (r.Err? ==> r.error == "The method " + Key(first) + " does not exist")
      && (r.Ok? && NamesInit(first) ==> r.value.opts == if |args| > 1 then args[1] else Falsy)
      && (r.Ok? && !NamesInit(first) ==> r.value.opts == first)
  {
    var first := if args == [] then Falsy else args[0];
    if NamesInit(first) then
      Ok(Init(if |args| > 1 then args[1] else Falsy))
    else if first.Obj? || !Truthy(first) then
      Ok(Init(first))
    else
      Err("The method " + Key(first) + " does not exist")
  }

  /**
   * Only a plain object with a non-empty selector configures an instance:
   * `init` reached with a string, array, number or falsy value always fails.
   */
  lemma OnlyObjectsConfigure(opts: Arg)
    ensures SelectorOk(Extend(opts)) <==> opts.Obj? && opts.options.selector.Some? && opts.options.selector.value != ""
  {
  }

  /**
   * When `init` runs on several elements it re-enters the plugin with
   * `streamRotate(opts)` for each. That re-entry initialises with the same
   * options exactly when they carry a selector; otherwise it fails too,
   * either in dispatch or for want of a selector.
   */
  lemma ReentryAgrees(opts: Arg)
    ensures SelectorOk(Extend(opts)) ==> Dispatch([opts]) == Ok(Init(opts))
    ensures !SelectorOk(Extend(opts)) ==>
      Dispatch([opts]).Err? || !SelectorOk(Extend(Dispatch([opts]).value.opts))
  {
  }
}
