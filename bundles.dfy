// The file lists of the build script and the build itself: three
// deduplicated bundles (utilities, components, the full framework) and the
// minified full framework.
module Bundles {
  import opened Wrappers
  import opened Text
  import opened Dedupe
  import opened Minify

  // The design tokens, listed first in both bundles.
  const TokensFile: string := "src/tokens/color-tokens.css"

  const UtilityFiles: seq<string> := [
    TokensFile,
    "src/utilities/variables.css",
    "src/utilities/reset.css",
    "src/utilities/normalize.css",
    "src/utilities/base.css",
    "src/utilities/quanta-css-variants.css"
  ]

  // The components' own reset, variables and base sheets, listed right
  // after the tokens.
  const ComponentBaseFiles: seq<string> := [
    "src/components/reset.css",
    "src/components/variables.css",
    "src/components/base.css"
  ]

  const ComponentFiles: seq<string> := [TokensFile] + ComponentBaseFiles + [
    "src/components/accordions.css",
    "src/components/alerts.css",
    "src/components/avatars.css",
    "src/components/badges.css",
    "src/components/breadcrumbs.css",
    "src/components/buttons.css",
    "src/components/cards.css",
    "src/components/carousel.css",
    "src/components/chips.css",
    "src/components/columns.css",
    "src/components/containers.css",
    "src/components/datepicker.css",
    "src/components/divider.css",
    "src/components/drawer.css",
    "src/components/dropdown.css",
    "src/components/file-uploads.css",
    "src/components/footer.css",
    "src/components/forms.css",
    "src/components/form-elements.css",
    "src/components/gallery.css",
    "src/components/grids.css",
    "src/components/hero.css",
    "src/components/input-group.css",
    "src/components/lazy-load.css",
    "src/components/list.css",
    "src/components/megamenu.css",
    "src/components/modals.css",
    "src/components/navbar.css",
    "src/components/notifications.css",
    "src/components/paginations.css",
    "src/components/popovers.css",
    "src/components/pricing.css",
    "src/components/progress-bars.css",
    "src/components/range-slider.css",
    "src/components/rating.css",
    "src/components/searchfilter.css",
    "src/components/sidebar.css",
    "src/components/skeleton.css",
    "src/components/spinners.css",
    "src/components/stats.css",
    "src/components/stepper.css",
    "src/components/sticky.css",
    "src/components/tables.css",
    "src/components/textarea.css",
    "src/components/tabs.css",
    "src/components/theme-switcher.css",
    "src/components/timeline.css",
    "src/components/tooltips.css",
    "src/components/visibility.css"
  ]

  const ExcludedComponentFiles: seq<string> := ["reset.css", "variables.css", "base.css", "color-tokens.css"]

  // `excludedComponentFiles.some(exclude => file.includes(`/components/${exclude}`))`.
  predicate Excluded(file: string) {
    exists k | 0 <= k < |ExcludedComponentFiles| :: Contains(file, "/components/" + ExcludedComponentFiles[k])
  }

  // `files.filter(file => !Excluded(file))`.
  function DropExcluded(files: seq<string>): (r: seq<string>)
    ensures |r| <= |files|
    ensures forall f :: f in r <==> f in files && !Excluded(f)
  {
    if files == [] then []
    else
      var rest := DropExcluded(files[..|files| - 1]);
      var last := files[|files| - 1];
      assert files == files[..|files| - 1] + [last];
      if Excluded(last) then rest else rest + [last]
  }

  // The filter keeps the order: the files kept from a longer list extend
  // those kept from its beginning.
  lemma {:induction false} DropExcludedPrefix(files: seq<string>, n: nat)
    requires n <= |files|
    ensures DropExcluded(files[..n]) <= DropExcluded(files)
    decreases |files| - n
  {
    if n < |files| {
      DropExcludedPrefix(files, n + 1);
      var shorter := files[..n + 1];
      assert shorter[..n] == files[..n];
      DropExcludedStep(shorter);
    } else {
      assert files[..n] == files;
    }
  }

  // Adding a file at the end keeps the files kept before.
  lemma DropExcludedStep(files: seq<string>)
    requires files != []
    ensures DropExcluded(files[..|files| - 1]) <= DropExcluded(files)
  {
  }

  function FilteredComponentFiles(): seq<string> {
    DropExcluded(ComponentFiles)
  }

  function AllSourceFiles(): seq<string> {
    UtilityFiles + FilteredComponentFiles()
  }

  // What the build writes, by output file.
  datatype Bundle = Bundle(utilities: string, components: string, quanta: string, quantaMin: string)

  // The three `buildAndDedupe` calls and the built-in minification of the
  // full bundle. Each call has its own seen-sets.
  method Build(fs: FileSystem) returns (out: Bundle)
    ensures out.utilities == Output(fs, UtilityFiles)
    ensures out.components == Output(fs, ComponentFiles)
    ensures out.quanta == Output(fs, AllSourceFiles())
    ensures out.quantaMin == MinifyCss(out.quanta)
    ensures Minified(out.quantaMin)
  {
    var utilities, _, _ := BuildAndDedupe(fs, UtilityFiles);
    var components, _, _ := BuildAndDedupe(fs, ComponentFiles);
    var quanta, _, _ := BuildAndDedupe(fs, AllSourceFiles());
    MinifyIsMinified(quanta);
    out := Bundle(utilities, components, quanta, MinifyCss(quanta));
  }

  // ---------------------------------------------------------------------
  // The exclusions at work

  // The components' own reset sheet is excluded from the full framework,
  // which takes the utilities' reset instead.
  lemma ResetExcluded(f: string)
    requires f == "src/components/reset.css"
    ensures Excluded(f)
    ensures f in ComponentFiles && f !in AllSourceFiles()
  {
    ResetMatches(f);
    ResetListed(f);
    ResetNotUtility(f);
    var kept := FilteredComponentFiles();
    assert f !in kept;
    assert AllSourceFiles() == UtilityFiles + kept;
  }

  lemma ResetMatches(f: string)
    requires f == "src/components/reset.css"
    ensures Excluded(f)
  {
    assert OccursAt(f, "/components/" + ExcludedComponentFiles[0], 3);
  }

  lemma ResetListed(f: string)
    requires f == "src/components/reset.css"
    ensures f in ComponentFiles
  {
    assert ComponentBaseFiles[0] == f;
    assert ComponentFiles[1] == f;
  }

  lemma ResetNotUtility(f: string)
    requires f == "src/components/reset.css"
    ensures f !in UtilityFiles
  {
  }

  // The shared tokens file lives under `tokens/`, not `components/`, so the
  // exclusion of `color-tokens.css` never applies to it: the components
  // bundle and the full framework both list it.
  lemma ColorTokensKept()
    ensures !Excluded(TokensFile)
    ensures TokensFile in FilteredComponentFiles() && TokensFile in UtilityFiles
  {
    forall k | 0 <= k < |ExcludedComponentFiles| ensures !Contains(TokensFile, "/components/" + ExcludedComponentFiles[k]) {
      NoComponentsDir(TokensFile, "/components/" + ExcludedComponentFiles[k]);
    }
    assert ComponentFiles[0] == TokensFile;
  }

  // No `/com` occurs in the tokens path, so no `/components/...` does.
  lemma NoComponentsDir(f: string, p: string)
    requires f == "src/tokens/color-tokens.css"
    requires |p| >= 4 && p[..4] == "/com"
    ensures !Contains(f, p)
  {
    assert p[0] == p[..4][0] && p[3] == p[..4][3];
    forall i | 0 <= i && i + |p| <= |f| ensures !OccursAt(f, p, i) {
      NoSlashM(f, i);
      assert f[i + 0] != p[0] || f[i + 3] != p[3];
    }
  }

  lemma NoSlashM(f: string, i: int)
    requires f == "src/tokens/color-tokens.css"
    requires 0 <= i < |f| - 3
    ensures !(f[i] == '/' && f[i + 3] == 'm')
  {
  }
}
