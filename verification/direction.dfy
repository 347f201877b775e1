/** The text-direction controller: the root element's `dir` attribute and
    `rtl` class, the `sa-dir` storage key and the labels of every toggle
    button are set together. */
module Direction {
  import opened Wrappers
  import opened Storage

  const DIR_KEY := "sa-dir"
  const RTL_CLASS := "rtl"

  datatype Dir = Ltr | Rtl {
    /** The attribute and storage string for this direction. */
    function Name(): string {
      match this
      case Ltr => "ltr"
      case Rtl => "rtl"
    }

    /** The label the toggle buttons show in this direction. */
    function Label(): string {
      match this
      case Ltr => "EN"
      case Rtl => "AR"
    }

    function Flip(): Dir {
      match this
      case Ltr => Rtl
      case Rtl => Ltr
    }
  }

  /** The root element's `dir` attribute (`None` before it is set) and
      classes, the toggle buttons' texts in document order, and storage. */
  datatype DirState = DirState(dir: Option<string>, rootClasses: set<string>, labels: seq<string>, store: Store)
  {
    /** Every toggle button shows the same text. */
    predicate LabelsAgree() {
      forall i, j :: 0 <= i < |labels| && 0 <= j < |labels| ==> labels[i] == labels[j]
    }
  }

  /** `updateButtonLabels(direction)`: every button reads "AR" for "rtl" and
      "EN" for anything else. */
  function UpdateButtonLabels(labels: seq<string>, direction: string): (r: seq<string>)
    ensures |r| == |labels|
    ensures forall i :: 0 <= i < |r| ==> r[i] == (if direction == "rtl" then Rtl else Ltr).Label()
  {
    var text := if direction == "rtl" then "AR" else "EN";
    seq(|labels|, _ => text)
  }

  /** `applyDirection(direction)`: attribute, class, storage and labels all
      follow `direction`, and nothing else changes. */
  function ApplyDirection(s: DirState, direction: string): (r: DirState)
    ensures r.dir == Some(direction)
    ensures RTL_CLASS in r.rootClasses <==> direction == "rtl"
    ensures r.rootClasses - {RTL_CLASS} == s.rootClasses - {RTL_CLASS}
    ensures Get(r.store, DIR_KEY) == Some(direction)
    ensures forall k :: k != DIR_KEY ==> Get(r.store, k) == Get(s.store, k)
    ensures |r.labels| == |s.labels|
    ensures forall i :: 0 <= i < |r.labels| ==> (r.labels[i] == "AR" <==> direction == "rtl")
    ensures forall i :: 0 <= i < |r.labels| ==> (r.labels[i] == "EN" <==> direction != "rtl")
  {
    var classes := if direction == "rtl" then s.rootClasses + {RTL_CLASS} else s.rootClasses - {RTL_CLASS};
    DirState(Some(direction), classes, UpdateButtonLabels(s.labels, direction), Set(s.store, DIR_KEY, direction))
  }

  /** After any `applyDirection` the buttons agree with each other. */
  lemma ApplyLabelsAgree(s: DirState, direction: string)
    ensures ApplyDirection(s, direction).LabelsAgree()
  {
  }

  /** Applying the same direction a second time changes nothing. */
  lemma ApplyIdempotent(s: DirState, direction: string)
    ensures ApplyDirection(ApplyDirection(s, direction), direction) == ApplyDirection(s, direction)
  {
  }

  /** The direction startup applies: the stored string when it is present and
      non-empty, "ltr" otherwise. */
  function StartupDirection(store: Store): (d: string)
    ensures Truthy(Get(store, DIR_KEY)) ==> d == store[DIR_KEY]
    ensures !Truthy(Get(store, DIR_KEY)) ==> d == Ltr.Name()
  {
    match Get(store, DIR_KEY)
    case Some(stored) => if stored != "" then stored else "ltr"
    case None => "ltr"
  }

  /** Startup: apply the stored direction, defaulting to ltr. */
  function Startup(s: DirState): (r: DirState)
    ensures r.dir == Some(StartupDirection(s.store))
    ensures Get(r.store, DIR_KEY) == r.dir
    ensures RTL_CLASS in r.rootClasses <==> r.dir == Some("rtl")
    ensures r.rootClasses - {RTL_CLASS} == s.rootClasses - {RTL_CLASS}
    ensures r.LabelsAgree() && |r.labels| == |s.labels|
    ensures forall i :: 0 <= i < |r.labels| ==> r.labels[i] == (if r.dir == Some("rtl") then "AR" else "EN")
    ensures forall k :: k != DIR_KEY ==> Get(r.store, k) == Get(s.store, k)
  {
    ApplyDirection(s, StartupDirection(s.store))
  }

  /** The direction a click applies: "ltr" exactly when the attribute is
      currently "rtl", "rtl" otherwise. */
  function NextDirection(s: DirState): (d: Dir)
    ensures d == Ltr <==> s.dir == Some("rtl")
  {
    if s.dir == Some("rtl") then Ltr else Rtl
  }

  /** A click of any toggle button. */
  function Toggle(s: DirState): (r: DirState)
    ensures r.dir == Some(if s.dir == Some("rtl") then "ltr" else "rtl")
    ensures Get(r.store, DIR_KEY) == r.dir
    ensures RTL_CLASS in r.rootClasses <==> s.dir != Some("rtl")
    ensures r.rootClasses - {RTL_CLASS} == s.rootClasses - {RTL_CLASS}
    ensures |r.labels| == |s.labels|
    ensures forall i :: 0 <= i < |r.labels| ==> r.labels[i] == (if s.dir == Some("rtl") then "EN" else "AR")
    ensures forall k :: k != DIR_KEY ==> Get(r.store, k) == Get(s.store, k)
  {
    ApplyDirection(s, NextDirection(s).Name())
  }

  /** On the two proper directions a click flips the direction. */
  lemma ToggleFlips(s: DirState, d: Dir)
    requires s.dir == Some(d.Name())
    ensures Toggle(s).dir == Some(d.Flip().Name())
  {
  }

  /** Two clicks from a proper direction bring it back, with matching class,
      storage and labels. */
  lemma ToggleTwiceRestores(s: DirState, d: Dir)
    requires s.dir == Some(d.Name())
    ensures Toggle(Toggle(s)).dir == s.dir
    ensures Toggle(Toggle(s)) == ApplyDirection(s, d.Name())
  {
  }

  /** Every state a page reaches after startup is the result of applying a
      direction; from ltr or rtl two clicks give that very state back. */
  lemma ToggleTwiceOnApplied(s0: DirState, d: Dir)
    ensures var s := ApplyDirection(s0, d.Name()); Toggle(Toggle(s)) == s
  {
    ToggleTwiceRestores(ApplyDirection(s0, d.Name()), d);
    ApplyIdempotent(s0, d.Name());
  }

  /** A stored value that is neither "ltr" nor "rtl" is written to the
      attribute as it is, shows the ltr layout and labels, and the first click
      switches to rtl. */
  lemma UnexpectedStoredValue(s: DirState, v: string)
    requires Get(s.store, DIR_KEY) == Some(v) && v !in {"", "ltr", "rtl"}
    ensures Startup(s).dir == Some(v)
    ensures RTL_CLASS !in Startup(s).rootClasses
    ensures forall i :: 0 <= i < |Startup(s).labels| ==> Startup(s).labels[i] == "EN"
    ensures Toggle(Startup(s)).dir == Some("rtl")
  {
  }
}
