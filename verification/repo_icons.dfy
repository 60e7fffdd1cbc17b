/** The emoji shown beside a repository (src/lib/repo-icons.ts): looked up
    by the lowercased text after the last `/`. Some names are mapped to no
    icon at all (`null`, here `None`); names missing from the table get the
    folder icon. */
module RepoIcons {
  import opened Wrappers
  import opened Text
  import opened RepoAllowlist

  const REPO_EMOJI_MAP: map<string, Option<string>> := map[
    "age-boldly-vibrantly" := Some("💚"),
    "exquisite-dentistry" := Some("🦷"),
    "pti" := Some("💼"),
    "leadership-retreat" := Some("🌸"),
    "canary-foundation" := Some("💛"),
    "chris-dentist" := Some("🦷"),
    "canary-cove-alpha" := Some("🏖️"),
    "drnjo" := Some("💼"),
    "wine-country-root-canal" := Some("🦷"),
    "family-first-smile-care" := Some("🦷"),
    "infobell-it-2" := Some("💻"),
    "matisse" := Some("🏃🏽‍♀️"),
    "philippine-athletics" := Some("🇵🇭"),
    "saorsa-3" := Some("🌱"),
    "listwin-ventures" := Some("💼"),
    "ambergris-support-spark" := Some("☀️"),
    "olympicbootworks-retail" := Some("🎿"),
    "grace-dental" := Some("🦷"),
    "density" := None,
    "yt-keywords" := None
  ]

  const DEFAULT_EMOJI: string := "📁"

  /** `emojiForRepo`: no icon for a name mapped to `null`, the mapped icon
      for a name in the table, the folder icon otherwise. */
  function EmojiForRepo(repo: string): (r: Option<string>)
    ensures var key := ToLower(Slug(repo));
      && (r.None? <==> key in REPO_EMOJI_MAP && REPO_EMOJI_MAP[key].None?)
      && (key !in REPO_EMOJI_MAP ==> r == Some(DEFAULT_EMOJI))
      && (key in REPO_EMOJI_MAP && REPO_EMOJI_MAP[key].Some? ==> r == REPO_EMOJI_MAP[key])
  {
    var slug := ToLower(Slug(repo));
    if slug in REPO_EMOJI_MAP then REPO_EMOJI_MAP[slug] else Some(DEFAULT_EMOJI)
  }

  /** The icon reads only the text after the last `/`. */
  lemma EmojiReadsSlug(prefix: string, slug: string)
    requires '/' !in slug
    ensures EmojiForRepo(prefix + "/" + slug) == EmojiForRepo(slug)
  {
    SlugAfterSlash(prefix, slug);
    SlugWithoutSlash(slug);
  }

  /** Exactly two names are mapped to no icon. */
  lemma NullEntries()
    ensures forall k :: k in REPO_EMOJI_MAP && REPO_EMOJI_MAP[k].None? <==> k == "density" || k == "yt-keywords"
  {
  }

  lemma DrNjoKey(repo: string)
    requires Slug(repo) == "DrNjo"
    ensures EmojiForRepo(repo) == Some("💼")
  {
    assert ToLower("DrNjo") == "drnjo";
  }

  /** A mapped name finds its icon whatever its case. */
  lemma DrNjoEmoji()
    ensures EmojiForRepo("enzo-prism/DrNjo") == Some("💼")
  {
    DrNjoSlug();
    DrNjoKey("enzo-prism/DrNjo");
  }

  lemma ShipKey(repo: string)
    requires Slug(repo) == "ship"
    ensures EmojiForRepo(repo) == Some(DEFAULT_EMOJI)
  {
    assert ToLower("ship") == "ship";
  }

  /** `ship` is not in the table and gets the folder icon. */
  lemma ShipEmoji()
    ensures EmojiForRepo("enzo-prism/ship") == Some(DEFAULT_EMOJI)
  {
    SlugAfterSlash("enzo-prism", "ship");
    assert "enzo-prism" + "/" + "ship" == "enzo-prism/ship";
    ShipKey("enzo-prism/ship");
  }

  lemma DensityKey(repo: string)
    requires Slug(repo) == "density"
    ensures EmojiForRepo(repo) == None
  {
    assert ToLower("density") == "density";
  }

  /** `density` is mapped to no icon. */
  lemma DensityEmoji()
    ensures EmojiForRepo("enzo-prism/density") == None
  {
    SlugAfterSlash("enzo-prism", "density");
    assert "enzo-prism" + "/" + "density" == "enzo-prism/density";
    DensityKey("enzo-prism/density");
  }
}
