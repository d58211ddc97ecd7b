/** The extension repository client (`ExtensionGithubApi`): it reads the
    repository index (from GitHub, or from the fallback mirror once GitHub
    has failed), turns index entries into available extensions, and picks
    the installed extensions that have an update. The network, JSON parsing,
    Kotlin's floating-point `toDouble` and the extension loader's supported
    lib-version bounds are outside the model: responses arrive already
    parsed, the rest is the `LoaderConfig` parameter. */
module ExtensionApi {
  import opened Text
  import opened Sorting

  const BASE_URL: string := "https://raw.githubusercontent.com/"
  const REPO_URL_PREFIX: string := BASE_URL + "tachiyomiorg/tachiyomi-extensions/repo/"
  const FALLBACK_BASE_URL: string := "https://gcore.jsdelivr.net/gh/"
  const FALLBACK_REPO_URL_PREFIX: string := FALLBACK_BASE_URL + "tachiyomiorg/tachiyomi-extensions@repo/"

  /** Below this many extensions the index is taken to be broken. */
  const MIN_EXTENSIONS: nat := 100

  /** The prefix a display name carries in the index. */
  const NAME_PREFIX: string := "Tachiyomi: "

  /** A source inside an extension, passed through untouched. */
  datatype AvailableSource = AvailableSource(id: int, lang: string, name: string, baseUrl: string)

  /** One entry of `index.min.json`. */
  datatype ExtensionJson = ExtensionJson(
    name: string, pkg: string, apk: string, lang: string, code: int, version: string,
    nsfw: int, hasReadme: int, hasChangelog: int, sources: Option<seq<AvailableSource>>)

  /** An extension the repository offers. */
  datatype Available = Available(
    name: string, pkgName: string, versionName: string, versionCode: int, libVersion: real,
    lang: string, isNsfw: bool, hasReadme: bool, hasChangelog: bool,
    sources: seq<AvailableSource>, apkName: string, iconUrl: string, repoUrl: string,
    isRepoSource: bool)

  /** What is known of an installed extension. */
  datatype Installed = Installed(pkgName: string, versionCode: int, libVersion: real,
                                 isUnofficial: bool)

  /** Where an extension's apk lives. */
  datatype ExtensionInfo = ExtensionInfo(repoUrl: string, apkName: string)

  /** `toDouble` (absent when the text is not a number) and the lib versions
      the extension loader supports. */
  datatype LoaderConfig = LoaderConfig(toDouble: string -> Option<real>, libMin: real, libMax: real)

  /** The responses the client would get: the GitHub index (`None` when the
      request fails), the fallback index and each extra repository's index
      (`None` when that request fails). */
  datatype Network = Network(github: Option<seq<ExtensionJson>>,
                             fallback: Option<seq<ExtensionJson>>,
                             repos: seq<(string, Option<seq<ExtensionJson>>)>)

  function UrlPrefix(usesFallback: bool): (r: string)
    ensures usesFallback ==> StartsWith(r, FALLBACK_BASE_URL)
    ensures !usesFallback ==> StartsWith(r, BASE_URL)
  {
    if usesFallback then FALLBACK_REPO_URL_PREFIX else REPO_URL_PREFIX
  }

  /** `extractLibVersion`: the number before the last '.' of the version
      name ("1.4.12" gives 1.4); absent when that text is not a number, where
      Kotlin throws. */
  function ExtractLibVersion(e: ExtensionJson, cfg: LoaderConfig): (r: Option<real>)
    // a version name without a '.' is read whole
    ensures '.' !in e.version ==> r == cfg.toDouble(e.version)
  {
    cfg.toDouble(SubstringBeforeLast(e.version, '.'))
  }

  /** The text `ExtractLibVersion` reads is the version name up to, not
      including, its last '.'. */
  lemma LibVersionText(e: ExtensionJson, cfg: LoaderConfig)
    ensures '.' in e.version ==>
      exists k :: 0 <= k < |e.version| && e.version[k] == '.' && '.' !in e.version[k + 1..] &&
        ExtractLibVersion(e, cfg) == cfg.toDouble(e.version[..k])
    ensures '.' !in e.version ==> ExtractLibVersion(e, cfg) == cfg.toDouble(e.version)
  {
    var t := SubstringBeforeLast(e.version, '.');
    if '.' in e.version {
      var k := |t|;
      assert e.version[..k] == t;
    }
  }

  predicate Supported(v: real, cfg: LoaderConfig)
  {
    cfg.libMin <= v <= cfg.libMax
  }

  /** The `map` step of `toExtensions`: one index entry as an available extension. */
  function ToAvailable(e: ExtensionJson, libVersion: real, repoUrl: string, repoSource: bool): (r: Available)
    ensures Contains(e.name, NAME_PREFIX) ==>
      e.name == e.name[..IndexOf(e.name, NAME_PREFIX).value] + NAME_PREFIX + r.name
    ensures !Contains(e.name, NAME_PREFIX) ==> r.name == e.name
    ensures r.isNsfw <==> e.nsfw == 1
    ensures r.hasReadme <==> e.hasReadme == 1
    ensures r.hasChangelog <==> e.hasChangelog == 1
    ensures e.sources.None? ==> r.sources == []
    ensures e.sources.Some? ==> r.sources == e.sources.value
    ensures r.iconUrl == r.repoUrl + "icon/" + e.pkg + ".png"
    ensures r.pkgName == e.pkg && r.apkName == e.apk && r.repoUrl == repoUrl
    ensures r.versionCode == e.code && r.libVersion == libVersion && r.isRepoSource == repoSource
    ensures r.versionName == e.version && r.lang == e.lang
  {
    Available(
      SubstringAfter(e.name, NAME_PREFIX), e.pkg, e.version, e.code, libVersion, e.lang,
      e.nsfw == 1, e.hasReadme == 1, e.hasChangelog == 1,
      if e.sources.Some? then e.sources.value else [],
      e.apk, repoUrl + "icon/" + e.pkg + ".png", repoUrl, repoSource)
  }

  /** Whether the lib version of an entry cannot be read, which makes
      `toExtensions` throw. */
  predicate Unreadable(e: ExtensionJson, cfg: LoaderConfig)
  {
    ExtractLibVersion(e, cfg).None?
  }

  /** `toExtensions`: the entries whose lib version is supported, mapped in
      order; an error when some entry's lib version cannot be read. */
  function ToExtensions(list: seq<ExtensionJson>, repoUrl: string, repoSource: bool,
                        cfg: LoaderConfig): (r: Result<seq<Available>>)
    ensures r.Ok? <==> forall i :: 0 <= i < |list| ==> !Unreadable(list[i], cfg)
    ensures r.Ok? ==> |r.value| <= |list|
    ensures r.Ok? ==> forall k :: 0 <= k < |r.value| ==>
      r.value[k].repoUrl == repoUrl && r.value[k].isRepoSource == repoSource &&
      Supported(r.value[k].libVersion, cfg)
  {
    if list == [] then Ok([])
    else
      var rest := ToExtensions(list[1..], repoUrl, repoSource, cfg);
      assert forall i :: 1 <= i < |list| ==> list[i] == list[1..][i - 1];
      match ExtractLibVersion(list[0], cfg)
      case None => Err("lib version is not a number")
      case Some(v) =>
        if rest.Err? then rest
        else if Supported(v, cfg) then Ok([ToAvailable(list[0], v, repoUrl, repoSource)] + rest.value)
        else rest
  }

  /** One step of `toExtensions` that succeeds. */
  lemma ToExtensionsUnfold(list: seq<ExtensionJson>, repoUrl: string, repoSource: bool, cfg: LoaderConfig)
    requires list != [] && ToExtensions(list, repoUrl, repoSource, cfg).Ok?
    ensures ExtractLibVersion(list[0], cfg).Some?
    ensures ToExtensions(list[1..], repoUrl, repoSource, cfg).Ok?
    ensures var v := ExtractLibVersion(list[0], cfg).value;
      var rest := ToExtensions(list[1..], repoUrl, repoSource, cfg).value;
      ToExtensions(list, repoUrl, repoSource, cfg).value ==
        if Supported(v, cfg) then [ToAvailable(list[0], v, repoUrl, repoSource)] + rest else rest
  {
  }

  /** When every lib version can be read, `toExtensions` offers every
      supported entry, as `ToAvailable` makes it. */
  lemma {:induction false} ToExtensionsComplete(list: seq<ExtensionJson>, repoUrl: string, repoSource: bool,
                                                cfg: LoaderConfig)
    requires ToExtensions(list, repoUrl, repoSource, cfg).Ok?
    ensures forall i :: 0 <= i < |list| && Supported(ExtractLibVersion(list[i], cfg).value, cfg) ==>
      ToAvailable(list[i], ExtractLibVersion(list[i], cfg).value, repoUrl, repoSource)
        in ToExtensions(list, repoUrl, repoSource, cfg).value
  {
    if list != [] {
      ToExtensionsUnfold(list, repoUrl, repoSource, cfg);
      ToExtensionsComplete(list[1..], repoUrl, repoSource, cfg);
      forall i | 0 <= i < |list| && Supported(ExtractLibVersion(list[i], cfg).value, cfg)
        ensures ToAvailable(list[i], ExtractLibVersion(list[i], cfg).value, repoUrl, repoSource)
          in ToExtensions(list, repoUrl, repoSource, cfg).value
      {
        if i > 0 {
          assert list[i] == list[1..][i - 1];
        }
      }
    }
  }

  /** ... and nothing else: each extension it offers is a supported entry. */
  lemma {:induction false} ToExtensionsSound(list: seq<ExtensionJson>, repoUrl: string, repoSource: bool,
                                             cfg: LoaderConfig)
    requires ToExtensions(list, repoUrl, repoSource, cfg).Ok?
    ensures forall a :: a in ToExtensions(list, repoUrl, repoSource, cfg).value ==>
      exists i :: 0 <= i < |list| && Supported(ExtractLibVersion(list[i], cfg).value, cfg) &&
        a == ToAvailable(list[i], ExtractLibVersion(list[i], cfg).value, repoUrl, repoSource)
  {
    if list != [] {
      ToExtensionsUnfold(list, repoUrl, repoSource, cfg);
      ToExtensionsSound(list[1..], repoUrl, repoSource, cfg);
      forall a | a in ToExtensions(list, repoUrl, repoSource, cfg).value
        ensures exists i :: (0 <= i < |list| && Supported(ExtractLibVersion(list[i], cfg).value, cfg) &&
          a == ToAvailable(list[i], ExtractLibVersion(list[i], cfg).value, repoUrl, repoSource))
      {
        if a !in ToExtensions(list[1..], repoUrl, repoSource, cfg).value {
          assert Supported(ExtractLibVersion(list[0], cfg).value, cfg);
        } else {
          var j :| 0 <= j < |list[1..]| && Supported(ExtractLibVersion(list[1..][j], cfg).value, cfg) &&
            a == ToAvailable(list[1..][j], ExtractLibVersion(list[1..][j], cfg).value, repoUrl, repoSource);
          assert list[j + 1] == list[1..][j];
        }
      }
    }
  }

  /** The repository address of an extra repository path. */
  function RepoUrl(repoPath: string): (r: string)
    ensures StartsWith(r, BASE_URL)
  {
    BASE_URL + repoPath + "/repo/"
  }

  /** The `flatMap` over the extra repositories: each one's extensions, in
      order, marked as coming from a repository; an error when a request
      fails or a lib version cannot be read. */
  function RepoExtensions(repos: seq<(string, Option<seq<ExtensionJson>>)>, cfg: LoaderConfig)
    : (r: Result<seq<Available>>)
    ensures r.Ok? ==> forall k :: 0 <= k < |r.value| ==>
      r.value[k].isRepoSource && StartsWith(r.value[k].repoUrl, BASE_URL)
    ensures r.Ok? ==> forall i :: 0 <= i < |repos| ==> repos[i].1.Some?
  {
    if repos == [] then Ok([])
    else
      var url := RepoUrl(repos[0].0);
      var rest := RepoExtensions(repos[1..], cfg);
      assert forall i :: 1 <= i < |repos| ==> repos[i] == repos[1..][i - 1];
      match repos[0].1
      case None => Err("repository request failed")
      case Some(list) =>
        match ToExtensions(list, url, true, cfg)
        case Err(msg) => Err(msg)
        case Ok(head) =>
          if rest.Err? then rest
          else
            var all := head + rest.value;
            assert forall k :: 0 <= k < |head| ==> all[k] == head[k];
            assert forall k :: |head| <= k < |all| ==> all[k] == rest.value[k - |head|];
            Ok(all)
  }

  /** The extensions `findExtensions` returns once it knows which index it
      reads: the main index's supported extensions followed by the extra
      repositories', and an error when a request fails, a lib version cannot
      be read, or fewer than 100 extensions come back. */
  function Collect(net: Network, usesFallback: bool, cfg: LoaderConfig): (r: Result<seq<Available>>)
    ensures r.Ok? ==> |r.value| >= MIN_EXTENSIONS
    ensures r.Ok? ==> forall k :: 0 <= k < |r.value| ==>
      r.value[k].isRepoSource || r.value[k].repoUrl == UrlPrefix(usesFallback)
    ensures r.Ok? ==> (if usesFallback then net.fallback.Some? else net.github.Some?)
  {
    var response := if usesFallback then net.fallback else net.github;
    match response
    case None => Err("index request failed")
    case Some(list) =>
      match ToExtensions(list, UrlPrefix(usesFallback), false, cfg)
      case Err(msg) => Err(msg)
      case Ok(main) =>
        match RepoExtensions(net.repos, cfg)
        case Err(msg) => Err(msg)
        case Ok(more) =>
          var all := main + more;
          assert forall k :: 0 <= k < |main| ==> all[k] == main[k];
          assert forall k :: |main| <= k < |all| ==> all[k] == more[k - |main|];
          if |all| < MIN_EXTENSIONS then Err("too few extensions") else Ok(all)
  }

  /** `getApkUrl`: the apk under the repository's `apk/` directory. */
  function ApkUrl(info: ExtensionInfo): (r: string)
    ensures StartsWith(r, info.repoUrl + "apk/")
    ensures |r| == |info.repoUrl| + 4 + |info.apkName| && r[|r| - |info.apkName|..] == info.apkName
  {
    info.repoUrl + "apk/" + info.apkName
  }

  /** `extensions.find { it.pkgName == pkgName }`: the first extension with
      that package name. */
  function Find(extensions: seq<Available>, pkgName: string): (r: Option<Available>)
    ensures r.None? <==> forall k :: 0 <= k < |extensions| ==> extensions[k].pkgName != pkgName
    ensures r.Some? ==> exists k :: (0 <= k < |extensions| && extensions[k] == r.value &&
      r.value.pkgName == pkgName &&
      forall j :: 0 <= j < k ==> extensions[j].pkgName != pkgName)
  {
    if extensions == [] then None
    else if extensions[0].pkgName == pkgName then
      assert extensions[0] == extensions[0];
      Some(extensions[0])
    else
      var rest := Find(extensions[1..], pkgName);
      assert forall k :: 1 <= k < |extensions| ==> extensions[k] == extensions[1..][k - 1];
      if rest.Some? then
        var k :| 0 <= k < |extensions[1..]| && extensions[1..][k] == rest.value &&
          rest.value.pkgName == pkgName &&
          forall j :: 0 <= j < k ==> extensions[1..][j].pkgName != pkgName;
        assert extensions[k + 1] == rest.value;
        assert forall j :: 0 <= j < k + 1 ==> extensions[j].pkgName != pkgName by {
          forall j | 0 <= j < k + 1 ensures extensions[j].pkgName != pkgName {
            if j > 0 { assert extensions[j] == extensions[1..][j - 1]; }
          }
        }
        rest
      else
        rest
  }

  /** The update offered for one installed extension, if any: the first
      available extension with its package name, when the installed one is
      official and the available one has a higher version code or lib
      version. */
  function UpdateOf(extensions: seq<Available>, installed: Installed): (r: Option<Available>)
    ensures installed.isUnofficial ==> r.None?
    ensures r.Some? ==>
      && r.value.pkgName == installed.pkgName
      && (r.value.versionCode > installed.versionCode || r.value.libVersion > installed.libVersion)
  {
    match Find(extensions, installed.pkgName)
    case None => None
    case Some(a) =>
      if !installed.isUnofficial && (a.versionCode > installed.versionCode || a.libVersion > installed.libVersion)
      then Some(a) else None
  }

  /** The updates `checkForUpdates` reports, in the order of the installed list. */
  function UpdatesFor(extensions: seq<Available>, installed: seq<Installed>): (r: seq<Available>)
    ensures |r| <= |installed|
  {
    if installed == [] then []
    else
      var init := UpdatesFor(extensions, installed[..|installed| - 1]);
      match UpdateOf(extensions, installed[|installed| - 1])
      case None => init
      case Some(a) => init + [a]
  }

  /** The positions of the installed extensions that have an update, in order. */
  ghost function UpdatedPositions(extensions: seq<Available>, installed: seq<Installed>): (r: seq<nat>)
    ensures |r| <= |installed|
  {
    if installed == [] then []
    else
      var init := UpdatedPositions(extensions, installed[..|installed| - 1]);
      if UpdateOf(extensions, installed[|installed| - 1]).Some? then init + [|installed| - 1] else init
  }

  /** An installed extension has an update exactly when an available
      extension with its package name exists, it is official, and the first
      such available extension is newer by version code or by lib version. */
  lemma UpdateOfHas(extensions: seq<Available>, installed: Installed)
    ensures UpdateOf(extensions, installed).Some? <==>
      (exists k :: 0 <= k < |extensions| && extensions[k].pkgName == installed.pkgName) &&
      !installed.isUnofficial &&
      (Find(extensions, installed.pkgName).value.versionCode > installed.versionCode ||
       Find(extensions, installed.pkgName).value.libVersion > installed.libVersion)
    ensures UpdateOf(extensions, installed).Some? ==>
      UpdateOf(extensions, installed) == Find(extensions, installed.pkgName)
  {
  }

  /** The k-th reported update belongs to the k-th installed extension that
      has one: the positions rise strictly, and an installed extension is
      among them exactly when it has an update. */
  lemma UpdatesForReported(extensions: seq<Available>, installed: seq<Installed>)
    ensures |UpdatesFor(extensions, installed)| == |UpdatedPositions(extensions, installed)|
    ensures forall k :: 0 <= k < |UpdatedPositions(extensions, installed)| ==>
      UpdatedPositions(extensions, installed)[k] < |installed| &&
      UpdateOf(extensions, installed[UpdatedPositions(extensions, installed)[k]])
        == Some(UpdatesFor(extensions, installed)[k])
    ensures forall k, l :: 0 <= k < l < |UpdatedPositions(extensions, installed)| ==>
      UpdatedPositions(extensions, installed)[k] < UpdatedPositions(extensions, installed)[l]
    ensures forall i :: 0 <= i < |installed| ==>
      (i in UpdatedPositions(extensions, installed) <==> UpdateOf(extensions, installed[i]).Some?)
  {
    UpdatesForMatch(extensions, installed);
    UpdatedPositionsRise(extensions, installed);
    UpdatedPositionsMembers(extensions, installed);
  }

  /** The last installed extension's update, if any, ends both lists. */
  lemma UpdatesForSnoc(extensions: seq<Available>, installed: seq<Installed>)
    requires installed != []
    ensures var n := |installed| - 1;
      var last := UpdateOf(extensions, installed[n]);
      var ps, ps0 := UpdatedPositions(extensions, installed), UpdatedPositions(extensions, installed[..n]);
      var us, us0 := UpdatesFor(extensions, installed), UpdatesFor(extensions, installed[..n]);
      && (last.Some? ==> ps == ps0 + [n] && us == us0 + [last.value])
      && (last.None? ==> ps == ps0 && us == us0)
  {
  }

  /** Every position is of an installed extension. */
  lemma {:induction false} UpdatedPositionsBelow(extensions: seq<Available>, installed: seq<Installed>)
    ensures forall k :: 0 <= k < |UpdatedPositions(extensions, installed)| ==>
      UpdatedPositions(extensions, installed)[k] < |installed|
  {
    if installed != [] {
      var n := |installed| - 1;
      UpdatedPositionsBelow(extensions, installed[..n]);
      UpdatesForSnoc(extensions, installed);
    }
  }

  lemma {:induction false} UpdatesForMatch(extensions: seq<Available>, installed: seq<Installed>)
    ensures |UpdatesFor(extensions, installed)| == |UpdatedPositions(extensions, installed)|
    ensures forall k :: 0 <= k < |UpdatedPositions(extensions, installed)| ==>
      UpdatedPositions(extensions, installed)[k] < |installed| &&
      UpdateOf(extensions, installed[UpdatedPositions(extensions, installed)[k]])
        == Some(UpdatesFor(extensions, installed)[k])
  {
    UpdatedPositionsBelow(extensions, installed);
    if installed != [] {
      var n := |installed| - 1;
      var init := installed[..n];
      UpdatesForMatch(extensions, init);
      UpdatesForSnoc(extensions, installed);
      var ps, ps0 := UpdatedPositions(extensions, installed), UpdatedPositions(extensions, init);
      var us, us0 := UpdatesFor(extensions, installed), UpdatesFor(extensions, init);
      forall k | 0 <= k < |ps|
        ensures UpdateOf(extensions, installed[ps[k]]) == Some(us[k])
      {
        if k < |ps0| {
          assert ps[k] == ps0[k] && us[k] == us0[k];
          assert installed[ps0[k]] == init[ps0[k]];
        }
      }
    }
  }

  lemma {:induction false} UpdatedPositionsRise(extensions: seq<Available>, installed: seq<Installed>)
    ensures forall k, l :: 0 <= k < l < |UpdatedPositions(extensions, installed)| ==>
      UpdatedPositions(extensions, installed)[k] < UpdatedPositions(extensions, installed)[l]
  {
    if installed != [] {
      var n := |installed| - 1;
      var init := installed[..n];
      UpdatedPositionsRise(extensions, init);
      UpdatedPositionsBelow(extensions, init);
      UpdatesForSnoc(extensions, installed);
      var ps, ps0 := UpdatedPositions(extensions, installed), UpdatedPositions(extensions, init);
      forall k, l | 0 <= k < l < |ps| ensures ps[k] < ps[l] {
        if l < |ps0| {
          assert ps[k] == ps0[k] && ps[l] == ps0[l];
        } else {
          assert ps[k] == ps0[k] && ps[l] == n;
        }
      }
    }
  }

  lemma {:induction false} UpdatedPositionsMembers(extensions: seq<Available>, installed: seq<Installed>)
    ensures forall i :: 0 <= i < |installed| ==>
      (i in UpdatedPositions(extensions, installed) <==> UpdateOf(extensions, installed[i]).Some?)
  {
    if installed != [] {
      var n := |installed| - 1;
      var init := installed[..n];
      UpdatedPositionsMembers(extensions, init);
      UpdatedPositionsBelow(extensions, init);
      var ps, ps0 := UpdatedPositions(extensions, installed), UpdatedPositions(extensions, init);
      PositionsStep(ps0, ps, n, UpdateOf(extensions, installed[n]).Some?);
      forall i | 0 <= i < n
        ensures i in ps <==> UpdateOf(extensions, installed[i]).Some?
      {
        assert installed[i] == init[i];
      }
    }
  }

  /** Appending `n` (when `added`) or nothing to positions below `n`: `n`
      is then in the result exactly when it was added, and every position
      below `n` is in it exactly when it was before. */
  lemma PositionsStep(ps0: seq<nat>, ps: seq<nat>, n: nat, added: bool)
    requires forall k :: 0 <= k < |ps0| ==> ps0[k] < n
    requires added ==> ps == ps0 + [n]
    requires !added ==> ps == ps0
    ensures n in ps <==> added
    ensures forall i :: 0 <= i < n ==> (i in ps <==> i in ps0)
  {
    if added {
      assert ps[|ps0|] == n;
    }
    forall i | 0 <= i < n ensures i in ps <==> i in ps0 {
      InBelowLast(ps0, ps, n, i);
    }
  }

  /** Appending `n` or nothing to positions below `n` keeps the membership
      of every position below `n`. */
  lemma InBelowLast(ps0: seq<nat>, ps: seq<nat>, n: nat, i: nat)
    requires ps == ps0 + [n] || ps == ps0
    requires forall k :: 0 <= k < |ps0| ==> ps0[k] < n
    requires i < n
    ensures i in ps <==> i in ps0
  {
    if i in ps {
      var j :| 0 <= j < |ps| && ps[j] == i;
      assert j < |ps0| && ps0[j] == i;
    }
    if i in ps0 {
      var j :| 0 <= j < |ps0| && ps0[j] == i;
      assert ps[j] == i;
    }
  }

  class ExtensionGithubApi {
    /** Set once GitHub has failed; from then on only the mirror is asked. */
    var requiresFallbackSource: bool

    constructor()
      ensures !requiresFallbackSource
    {
      requiresFallbackSource := false;
    }

    /** `getUrlPrefix`. */
    function GetUrlPrefix(): (r: string)
      reads this`requiresFallbackSource
      ensures r == UrlPrefix(requiresFallbackSource)
    {
      if requiresFallbackSource then FALLBACK_REPO_URL_PREFIX else REPO_URL_PREFIX
    }

    /** `findExtensions`: GitHub is asked unless it has failed before; a
        failure switches to the mirror for good. */
    method FindExtensions(net: Network, cfg: LoaderConfig) returns (r: Result<seq<Available>>)
      modifies this`requiresFallbackSource
      ensures requiresFallbackSource == (old(requiresFallbackSource) || net.github.None?)
      ensures r == Collect(net, requiresFallbackSource, cfg)
    {
      if !requiresFallbackSource && net.github.None? {
        requiresFallbackSource := true;
      }
      var response := if requiresFallbackSource then net.fallback else net.github;
      if response.None? {
        return Err("index request failed");
      }
      var main := ToExtensions(response.value, GetUrlPrefix(), false, cfg);
      if main.Err? {
        return Err(main.message);
      }
      var more := RepoExtensions(net.repos, cfg);
      if more.Err? {
        return Err(more.message);
      }
      var extensions := main.value + more.value;
      if |extensions| < MIN_EXTENSIONS {
        return Err("too few extensions");
      }
      r := Ok(extensions);
    }

    /** `checkForUpdates`: with the prefetched list, or else the one
        `findExtensions` returns, report each installed extension's update
        in the order of the installed list. */
    method CheckForUpdates(prefetched: Option<seq<Available>>, net: Network, cfg: LoaderConfig,
                           installed: seq<Installed>) returns (r: Result<seq<Available>>)
      modifies this`requiresFallbackSource
      ensures prefetched.Some? ==>
        r == Ok(UpdatesFor(prefetched.value, installed)) &&
        requiresFallbackSource == old(requiresFallbackSource)
      ensures prefetched.None? ==>
        requiresFallbackSource == (old(requiresFallbackSource) || net.github.None?) &&
        var found := Collect(net, requiresFallbackSource, cfg);
        r == (if found.Err? then Err(found.message) else Ok(UpdatesFor(found.value, installed)))
    {
      var extensions: seq<Available>;
      if prefetched.Some? {
        extensions := prefetched.value;
      } else {
        var found := FindExtensions(net, cfg);
        if found.Err? {
          return Err(found.message);
        }
        extensions := found.value;
      }
      var extensionsWithUpdate: seq<Available> := [];
      for i := 0 to |installed|
        invariant extensionsWithUpdate == UpdatesFor(extensions, installed[..i])
      {
        assert installed[..i + 1][..i] == installed[..i];
        var availableExt := Find(extensions, installed[i].pkgName);
        if availableExt.None? {
          continue;
        }
        var hasUpdatedVer := availableExt.value.versionCode > installed[i].versionCode;
        var hasUpdatedLib := availableExt.value.libVersion > installed[i].libVersion;
        var hasUpdate := !installed[i].isUnofficial && (hasUpdatedVer || hasUpdatedLib);
        if hasUpdate {
          extensionsWithUpdate := extensionsWithUpdate + [availableExt.value];
        }
      }
      assert installed[..|installed|] == installed;
      r := Ok(extensionsWithUpdate);
    }
  }
}
