/** Both controllers on one document: the theme controller owns the body's
    `theme-dark` class and the `sa-theme` key, the direction controller owns the
    root element's `dir`/`rtl` state, the toggle labels and the `sa-dir` key.
    They share only the storage. */
module Site {
  import opened Wrappers
  import opened Storage
  import Theme
  import Direction

  datatype Document = Document(bodyClasses: set<string>, dir: Option<string>, rootClasses: set<string>,
                               labels: seq<string>, store: Store)
  {
    function ThemeView(): Theme.ThemeState {
      Theme.ThemeState(bodyClasses, store)
    }

    function DirView(): Direction.DirState {
      Direction.DirState(dir, rootClasses, labels, store)
    }
  }

  function WithTheme(d: Document, t: Theme.ThemeState): Document {
    d.(bodyClasses := t.bodyClasses, store := t.store)
  }

  function WithDir(d: Document, s: Direction.DirState): Document {
    d.(dir := s.dir, rootClasses := s.rootClasses, labels := s.labels, store := s.store)
  }

  /** A theme click on the document: the direction state and its stored key
      are untouched. */
  function ThemeClick(d: Document): (r: Document)
    ensures r.dir == d.dir && r.rootClasses == d.rootClasses && r.labels == d.labels
    ensures Get(r.store, Direction.DIR_KEY) == Get(d.store, Direction.DIR_KEY)
    ensures r.ThemeView() == Theme.Toggle(d.ThemeView())
  {
    WithTheme(d, Theme.Toggle(d.ThemeView()))
  }

  /** A direction click on the document: the theme state and its stored key
      are untouched. */
  function DirClick(d: Document): (r: Document)
    ensures r.bodyClasses == d.bodyClasses
    ensures Get(r.store, Theme.THEME_KEY) == Get(d.store, Theme.THEME_KEY)
    ensures r.DirView() == Direction.Toggle(d.DirView())
  {
    WithDir(d, Direction.Toggle(d.DirView()))
  }

  /** Page load: both controllers initialise once. Each ends up exactly where
      it would on its own, reading the storage the page started with, so the
      result does not depend on which script runs first (`BootOrderIrrelevant`). */
  function Boot(d: Document, prefersDark: bool): (r: Document)
    ensures r.dir == Some(Direction.StartupDirection(d.store))
    ensures Get(r.store, Direction.DIR_KEY) == r.dir
    ensures r.DirView().LabelsAgree()
    ensures r.rootClasses == Direction.Startup(d.DirView()).rootClasses
    ensures r.labels == Direction.Startup(d.DirView()).labels
    ensures forall k :: k != Direction.DIR_KEY && k != Theme.THEME_KEY ==> Get(r.store, k) == Get(d.store, k)
    ensures r.bodyClasses == Theme.InitTheme(d.ThemeView(), prefersDark).bodyClasses
    ensures Get(r.store, Theme.THEME_KEY) == Get(Theme.InitTheme(d.ThemeView(), prefersDark).store, Theme.THEME_KEY)
  {
    var afterDir := WithDir(d, Direction.Startup(d.DirView()));
    WithTheme(afterDir, Theme.InitTheme(afterDir.ThemeView(), prefersDark))
  }

  /** The two controllers do not interfere: a theme click and a direction
      click give the same document in either order. */
  lemma ClicksCommute(d: Document)
    ensures ThemeClick(DirClick(d)) == DirClick(ThemeClick(d))
  {
  }

  /** Running the theme startup before the direction startup gives the same
      document as `Boot`. */
  lemma BootOrderIrrelevant(d: Document, prefersDark: bool)
    ensures
      var afterTheme := WithTheme(d, Theme.InitTheme(d.ThemeView(), prefersDark));
      WithDir(afterTheme, Direction.Startup(afterTheme.DirView())) == Boot(d, prefersDark)
  {
  }
}
