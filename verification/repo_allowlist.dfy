/** The two allow-listed names written with capitals, lowercased. */
module CapitalisedKeys {
  import opened Text

  lemma CapitalisedNames()
    ensures ToLower("DrNjo") == "drnjo"
    ensures ToLower("Family-First-Smile-Care") == "family-first-smile-care"
  {
  }
}

/** The repositories the feed may show and their display names
    (src/lib/repo-allowlist.ts). A repository is named by its
    `owner/name` slug; the display name is looked up by the lowercased text
    after the last `/`, and falls back to that text as written. */
module RepoAllowlist {
  import opened Text
  import opened CapitalisedKeys

  /** The owner of every allow-listed repository, with its separator. */
  const OWNER: string := "enzo-prism/"

  /** The allow-listed repositories: `enzo-prism/` followed by each name. */
  const REPO_ALLOWLIST: seq<string> := [
    OWNER + "exquisite-dentistry",
    OWNER + "prism-website",
    OWNER + "pti",
    OWNER + "age-boldly-vibrantly",
    OWNER + "leadership-retreat",
    OWNER + "canary-foundation",
    OWNER + "chris-dentist",
    OWNER + "canary-cove-alpha",
    OWNER + "DrNjo",
    OWNER + "wine-country-root-canal",
    OWNER + "Family-First-Smile-Care",
    OWNER + "infobell-it-2",
    OWNER + "matisse",
    OWNER + "philippine-athletics",
    OWNER + "saorsa-3",
    OWNER + "listwin-ventures",
    OWNER + "ambergris-support-spark",
    OWNER + "olympicbootworks-retail",
    OWNER + "ship"
  ]

  const DISPLAY_NAME_OVERRIDES: map<string, string> := map[
    "age-boldly-vibrantly" := "Rebellious Aging",
    "exquisite-dentistry" := "Exquisite Dentistry",
    "leadership-retreat" := "Leadership Retreat",
    "canary-foundation" := "Canary Foundation",
    "prism-website" := "Prism",
    "pti" := "PTI",
    "chris-dentist" := "Dr. Wong",
    "canary-cove-alpha" := "Canary Cove",
    "drnjo" := "Dental Strategies",
    "wine-country-root-canal" := "Wine Country Root Canal",
    "family-first-smile-care" := "Family First Smile Care",
    "infobell-it-2" := "Infobell IT",
    "matisse" := "Matisse",
    "philippine-athletics" := "Philippine Athletics",
    "saorsa-3" := "Saorsa Growth Partners",
    "listwin-ventures" := "Listwin Ventures",
    "ambergris-support-spark" := "Belize Kids",
    "olympicbootworks-retail" := "Olympic Bootworks",
    "ship" := "🚢 ship"
  ]

  /** `isAllowedRepo`: exact, case-sensitive membership. */
  predicate IsAllowedRepo(value: string) {
    value in REPO_ALLOWLIST
  }

  /** The slug a repository is known by: the text after its last `/`. */
  function Slug(repo: string): (slug: string)
    ensures '/' !in slug && |slug| <= |repo| && slug == repo[|repo| - |slug|..]
    ensures |slug| == |repo| <==> '/' !in repo
    ensures |slug| < |repo| ==> repo[|repo| - |slug| - 1] == '/'
  {
    LastSegmentIsSuffix(repo, '/');
    LastSegment(repo, '/')
  }

  /** `repoDisplayName`: the override for the lowercased slug, else the slug
      as written. */
  function RepoDisplayName(repo: string): (name: string)
    ensures ToLower(Slug(repo)) !in DISPLAY_NAME_OVERRIDES ==> name == Slug(repo)
    ensures ToLower(Slug(repo)) in DISPLAY_NAME_OVERRIDES ==> name == DISPLAY_NAME_OVERRIDES[ToLower(Slug(repo))]
  {
    var slug := Slug(repo);
    var key := ToLower(slug);
    if key in DISPLAY_NAME_OVERRIDES then DISPLAY_NAME_OVERRIDES[key] else slug
  }

  /** The slug of `prefix/slug` is `slug`, whatever the prefix. */
  lemma SlugAfterSlash(prefix: string, slug: string)
    requires '/' !in slug
    ensures Slug(prefix + "/" + slug) == slug
  {
    var repo := prefix + "/" + slug;
    var r := LastSegment(repo, '/');
    LastSegmentIsSuffix(repo, '/');
    assert repo[|repo| - |slug| - 1] == '/';
    assert '/' in repo;
    assert r == repo[|repo| - |slug|..] == slug;
  }

  /** A string without `/` is its own slug. */
  lemma SlugWithoutSlash(repo: string)
    requires '/' !in repo
    ensures Slug(repo) == repo
  {
    LastSegmentIsSuffix(repo, '/');
  }

  /** The display name reads only the text after the last `/`. */
  lemma DisplayNameReadsSlug(prefix: string, slug: string)
    requires '/' !in slug
    ensures RepoDisplayName(prefix + "/" + slug) == RepoDisplayName(slug)
  {
    SlugAfterSlash(prefix, slug);
    SlugWithoutSlash(slug);
  }

  /** Nineteen entries, no two alike, all owned by `enzo-prism`. */
  lemma AllowlistShape()
    ensures |REPO_ALLOWLIST| == 19
    ensures forall i, j :: 0 <= i < j < |REPO_ALLOWLIST| ==> REPO_ALLOWLIST[i] != REPO_ALLOWLIST[j]
    ensures forall i :: 0 <= i < |REPO_ALLOWLIST| ==> Owned(REPO_ALLOWLIST[i])
  {
    forall i, j | 0 <= i < j < |REPO_ALLOWLIST|
      ensures REPO_ALLOWLIST[i] != REPO_ALLOWLIST[j]
    {
      assert REPO_ALLOWLIST[i][|OWNER|..] != REPO_ALLOWLIST[j][|OWNER|..];
    }
    AllowlistOverrides();
  }

  /** `repo` starts with the owner `enzo-prism/` and names something after it. */
  predicate Owned(repo: string) {
    |repo| > |OWNER| && repo[..|OWNER|] == OWNER
  }

  /** The display name of `repo` comes from the overrides, not from the
      fallback. */
  predicate HasOverride(repo: string) {
    ToLower(Slug(repo)) in DISPLAY_NAME_OVERRIDES
  }

  /** Every allow-listed repository is owned by `enzo-prism` and is shown
      under its override: the lowercased slug of each entry is a key. */
  lemma AllowlistOverrides()
    ensures forall r :: r in REPO_ALLOWLIST ==> Owned(r) && HasOverride(r)
  {
    forall r | r in REPO_ALLOWLIST
      ensures Owned(r) && HasOverride(r)
    {
      if r == OWNER + "exquisite-dentistry" {
        EntryExquisiteDentistry();
      }       else if r == OWNER + "prism-website" {
        EntryPrismWebsite();
      }       else if r == OWNER + "pti" {
        EntryPti();
      }       else if r == OWNER + "age-boldly-vibrantly" {
        EntryAgeBoldlyVibrantly();
      }       else if r == OWNER + "leadership-retreat" {
        EntryLeadershipRetreat();
      }       else if r == OWNER + "canary-foundation" {
        EntryCanaryFoundation();
      }       else if r == OWNER + "chris-dentist" {
        EntryChrisDentist();
      }       else if r == OWNER + "canary-cove-alpha" {
        EntryCanaryCoveAlpha();
      }       else if r == OWNER + "DrNjo" {
        EntryDrNjo();
      }       else if r == OWNER + "wine-country-root-canal" {
        EntryWineCountryRootCanal();
      }       else if r == OWNER + "Family-First-Smile-Care" {
        EntryFamilyFirstSmileCare();
      }       else if r == OWNER + "infobell-it-2" {
        EntryInfobellIt2();
      }       else if r == OWNER + "matisse" {
        EntryMatisse();
      }       else if r == OWNER + "philippine-athletics" {
        EntryPhilippineAthletics();
      }       else if r == OWNER + "saorsa-3" {
        EntrySaorsa3();
      }       else if r == OWNER + "listwin-ventures" {
        EntryListwinVentures();
      }       else if r == OWNER + "ambergris-support-spark" {
        EntryAmbergrisSupportSpark();
      }       else if r == OWNER + "olympicbootworks-retail" {
        EntryOlympicbootworksRetail();
      }       else if r == OWNER + "ship" {
        EntryShip();
      } else {
        assert false;
      }
    }
  }

  /** So every allow-listed repository is shown under its override's name,
      never under the fallback. */
  lemma AllowlistDisplayNames()
    ensures forall r :: r in REPO_ALLOWLIST ==>
      ToLower(Slug(r)) in DISPLAY_NAME_OVERRIDES && RepoDisplayName(r) == DISPLAY_NAME_OVERRIDES[ToLower(Slug(r))]
  {
    AllowlistOverrides();
  }

  /** `name` under the owner, with a lowercased `name` among the keys, is
      owned and overridden. */
  lemma OwnedOverride(name: string)
    requires '/' !in name && ToLower(name) in DISPLAY_NAME_OVERRIDES
    ensures Owned(OWNER + name) && HasOverride(OWNER + name)
  {
    assert OWNER + name == "enzo-prism" + "/" + name;
    SlugAfterSlash("enzo-prism", name);
  }

  // One lemma per entry, so that no proof has to take all nineteen names
  // apart at once.

  lemma EntryExquisiteDentistry()
    ensures Owned(OWNER + "exquisite-dentistry") && HasOverride(OWNER + "exquisite-dentistry")
  {
    LowerWithoutCapitals("exquisite-dentistry");
    OwnedOverride("exquisite-dentistry");
  }

  lemma EntryPrismWebsite()
    ensures Owned(OWNER + "prism-website") && HasOverride(OWNER + "prism-website")
  {
    LowerWithoutCapitals("prism-website");
    OwnedOverride("prism-website");
  }

  lemma EntryPti()
    ensures Owned(OWNER + "pti") && HasOverride(OWNER + "pti")
  {
    LowerWithoutCapitals("pti");
    OwnedOverride("pti");
  }

  lemma EntryAgeBoldlyVibrantly()
    ensures Owned(OWNER + "age-boldly-vibrantly") && HasOverride(OWNER + "age-boldly-vibrantly")
  {
    LowerWithoutCapitals("age-boldly-vibrantly");
    OwnedOverride("age-boldly-vibrantly");
  }

  lemma EntryLeadershipRetreat()
    ensures Owned(OWNER + "leadership-retreat") && HasOverride(OWNER + "leadership-retreat")
  {
    LowerWithoutCapitals("leadership-retreat");
    OwnedOverride("leadership-retreat");
  }

  lemma EntryCanaryFoundation()
    ensures Owned(OWNER + "canary-foundation") && HasOverride(OWNER + "canary-foundation")
  {
    LowerWithoutCapitals("canary-foundation");
    OwnedOverride("canary-foundation");
  }

  lemma EntryChrisDentist()
    ensures Owned(OWNER + "chris-dentist") && HasOverride(OWNER + "chris-dentist")
  {
    LowerWithoutCapitals("chris-dentist");
    OwnedOverride("chris-dentist");
  }

  lemma EntryCanaryCoveAlpha()
    ensures Owned(OWNER + "canary-cove-alpha") && HasOverride(OWNER + "canary-cove-alpha")
  {
    LowerWithoutCapitals("canary-cove-alpha");
    OwnedOverride("canary-cove-alpha");
  }

  lemma EntryDrNjo()
    ensures Owned(OWNER + "DrNjo") && HasOverride(OWNER + "DrNjo")
  {
    CapitalisedNames();
    OwnedOverride("DrNjo");
  }

  lemma EntryWineCountryRootCanal()
    ensures Owned(OWNER + "wine-country-root-canal") && HasOverride(OWNER + "wine-country-root-canal")
  {
    LowerWithoutCapitals("wine-country-root-canal");
    OwnedOverride("wine-country-root-canal");
  }

  lemma EntryFamilyFirstSmileCare()
    ensures Owned(OWNER + "Family-First-Smile-Care") && HasOverride(OWNER + "Family-First-Smile-Care")
  {
    CapitalisedNames();
    OwnedOverride("Family-First-Smile-Care");
  }

  lemma EntryInfobellIt2()
    ensures Owned(OWNER + "infobell-it-2") && HasOverride(OWNER + "infobell-it-2")
  {
    LowerWithoutCapitals("infobell-it-2");
    OwnedOverride("infobell-it-2");
  }

  lemma EntryMatisse()
    ensures Owned(OWNER + "matisse") && HasOverride(OWNER + "matisse")
  {
    LowerWithoutCapitals("matisse");
    OwnedOverride("matisse");
  }

  lemma EntryPhilippineAthletics()
    ensures Owned(OWNER + "philippine-athletics") && HasOverride(OWNER + "philippine-athletics")
  {
    LowerWithoutCapitals("philippine-athletics");
    OwnedOverride("philippine-athletics");
  }

  lemma EntrySaorsa3()
    ensures Owned(OWNER + "saorsa-3") && HasOverride(OWNER + "saorsa-3")
  {
    LowerWithoutCapitals("saorsa-3");
    OwnedOverride("saorsa-3");
  }

  lemma EntryListwinVentures()
    ensures Owned(OWNER + "listwin-ventures") && HasOverride(OWNER + "listwin-ventures")
  {
    LowerWithoutCapitals("listwin-ventures");
    OwnedOverride("listwin-ventures");
  }

  lemma EntryAmbergrisSupportSpark()
    ensures Owned(OWNER + "ambergris-support-spark") && HasOverride(OWNER + "ambergris-support-spark")
  {
    LowerWithoutCapitals("ambergris-support-spark");
    OwnedOverride("ambergris-support-spark");
  }

  lemma EntryOlympicbootworksRetail()
    ensures Owned(OWNER + "olympicbootworks-retail") && HasOverride(OWNER + "olympicbootworks-retail")
  {
    LowerWithoutCapitals("olympicbootworks-retail");
    OwnedOverride("olympicbootworks-retail");
  }

  lemma EntryShip()
    ensures Owned(OWNER + "ship") && HasOverride(OWNER + "ship")
  {
    LowerWithoutCapitals("ship");
    OwnedOverride("ship");
  }

  /** Membership is case-sensitive. */
  lemma AllowedIsCaseSensitive()
    ensures IsAllowedRepo("enzo-prism/DrNjo") && !IsAllowedRepo("enzo-prism/drnjo")
  {
    assert "enzo-prism/DrNjo" == OWNER + "DrNjo";
    assert "enzo-prism/drnjo" == OWNER + "drnjo";
    forall i | 0 <= i < |REPO_ALLOWLIST|
      ensures REPO_ALLOWLIST[i] != OWNER + "drnjo"
    {
      assert REPO_ALLOWLIST[i][|OWNER|..] != "drnjo";
    }
  }

  lemma DrNjoSlug()
    ensures Slug("enzo-prism/DrNjo") == "DrNjo"
  {
    SlugAfterSlash("enzo-prism", "DrNjo");
    assert "enzo-prism" + "/" + "DrNjo" == "enzo-prism/DrNjo";
  }

  lemma DrNjoKey(repo: string)
    requires Slug(repo) == "DrNjo"
    ensures RepoDisplayName(repo) == "Dental Strategies"
  {
    CapitalisedNames();
  }

  /** The display lookup is not: `enzo-prism/DrNjo` finds the `drnjo` entry. */
  lemma DrNjoDisplayName()
    ensures RepoDisplayName("enzo-prism/DrNjo") == "Dental Strategies"
  {
    DrNjoSlug();
    DrNjoKey("enzo-prism/DrNjo");
  }

  lemma UnknownSlug(repo: string)
    requires Slug(repo) == "Unknown-Repo"
    ensures RepoDisplayName(repo) == "Unknown-Repo"
  {
    assert ToLower("Unknown-Repo") == "unknown-repo";
  }

  /** A slug without an override is shown as written, in its own case. */
  lemma UnknownDisplayName()
    ensures RepoDisplayName("someone/Unknown-Repo") == "Unknown-Repo"
  {
    SlugAfterSlash("someone", "Unknown-Repo");
    assert "someone" + "/" + "Unknown-Repo" == "someone/Unknown-Repo";
    UnknownSlug("someone/Unknown-Repo");
  }
}
