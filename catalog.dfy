/**
 * src/constants/cache-categories.ts and src/constants/electron.ts: the
 * static catalog, in its declaration order, and the cache sub-directory
 * names that mark an Electron application.
 */
module Catalog {

  import opened Wrappers
  import opened Types
  import opened Paths

  const ElectronCacheDirs: seq<string> := [
    "Cache",
    "Code Cache",
    "GPUCache",
    "WebStorage",
    "Service Worker",
    "IndexedDB",
    "blob_storage",
    "Session Storage",
    "databases",
    "Local Storage"
  ]

  /** The home-relative path written `~/rest` in the table. */
  function Home(rest: string): (p: string)
    ensures StartsWith(p, "~/") && p[2..] == rest
  {
    "~/" + rest
  }

  /** `CACHE_CATEGORIES`, key by key, in declaration order. */
  const CacheCategories: seq<(string, CacheCategory)> := [
    ("yarn", Yarn),
    ("chrome", Chrome),
    ("googleUpdater", GoogleUpdater),
    ("cocoapods", CocoaPods),
    ("homebrew", Homebrew),
    ("vscode", VSCode),
    ("krisp", Krisp),
    ("warp", Warp),
    ("teams", Teams),
    ("xcode", Xcode),
    ("gradle", Gradle),
    ("userCache", UserCache),
    ("mediaAnalysis", MediaAnalysis),
    ("systemTemp", SystemTemp),
    ("simulator", Simulator),
    ("systemLogs", SystemLogs),
    ("npm", Npm),
    ("pnpm", Pnpm)
  ]

  const Yarn: CacheCategory := CacheCategory(
    "🧶 Yarn Cache",
    [Home("Library/Caches/Yarn/v6")],
    false, None, None, false)

  const Chrome: CacheCategory := CacheCategory(
    "🌐 Chrome Cache",
    [
      Home("Library/Caches/Google/Chrome/*/Cache"),
      Home("Library/Caches/Google/Chrome/*/Code Cache"),
      Home("Library/Application Support/Google/Chrome/*/WebStorage"),
      Home("Library/Application Support/Google/Chrome/*/Service Worker")
    ],
    false, None, None, false)

  const GoogleUpdater: CacheCategory := CacheCategory(
    "🔄 Google Updater",
    [Home("Library/Application Support/Google/GoogleUpdater")],
    false, None, None, false)

  const CocoaPods: CacheCategory := CacheCategory(
    "📦 CocoaPods Cache",
    [Home("Library/Caches/CocoaPods/Pods")],
    false, None, None, false)

  const Homebrew: CacheCategory := CacheCategory(
    "🍺 Homebrew Cache",
    [Home("Library/Caches/Homebrew/downloads")],
    false, None, Some("brew cleanup"), false)

  const VSCode: CacheCategory := CacheCategory(
    "💻 VSCode Cache",
    [
      Home("Library/Application Support/Code/Cache"),
      Home("Library/Application Support/Code/Code Cache"),
      Home("Library/Application Support/Code/GPUCache"),
      Home("Library/Application Support/Code/WebStorage"),
      Home("Library/Application Support/Code/Service Worker"),
      Home("Library/Application Support/Code/CachedData"),
      Home("Library/Application Support/Code - Insiders/Cache"),
      Home("Library/Application Support/Code - Insiders/Code Cache"),
      Home("Library/Application Support/Code - Insiders/GPUCache"),
      Home("Library/Application Support/Code - Insiders/WebStorage"),
      Home("Library/Application Support/Code - Insiders/Service Worker"),
      Home("Library/Application Support/Code - Insiders/CachedData")
    ],
    false, None, None, false)

  const Krisp: CacheCategory := CacheCategory(
    "🎤 Krisp Cache",
    [
      Home("Library/Application Support/krisp/Cache"),
      Home("Library/Application Support/krisp/Code Cache"),
      Home("Library/Application Support/krisp/GPUCache"),
      Home("Library/Application Support/krisp/WebStorage"),
      Home("Library/Application Support/krisp/Service Worker"),
      Home("Library/Application Support/krisp/update"),
      Home("Library/Application Support/krisp/logs")
    ],
    false, None, None, false)

  const Warp: CacheCategory := CacheCategory(
    "⚡ Warp Terminal Cache",
    [
      Home("Library/Application Support/dev.warp.Warp-Stable/Cache"),
      Home("Library/Application Support/dev.warp.Warp-Stable/Code Cache"),
      Home("Library/Application Support/dev.warp.Warp-Stable/GPUCache"),
      Home("Library/Application Support/dev.warp.Warp-Stable/autoupdate")
    ],
    false, None, None, false)

  const Teams: CacheCategory := CacheCategory(
    "📞 Microsoft Teams Cache",
    [
      Home("Library/Containers/com.microsoft.teams2/Data/Library/Caches"),
      Home("Library/Containers/com.microsoft.teams2/Data/Library/Application Support/Microsoft/MSTeams/EBWebView/WV2Profile_tfw/Service Worker"),
      Home("Library/Containers/com.microsoft.teams2/Data/Library/Application Support/Microsoft/MSTeams/EBWebView/WV2Profile_tfw/Session Storage"),
      Home("Library/Containers/com.microsoft.teams2/Data/Library/Application Support/Microsoft/MSTeams/EBWebView/WV2Profile_tfw/WebStorage"),
      Home("Library/Group Containers/UBF8T346G9.com.microsoft.teams/Library/Application Support/Logs")
    ],
    false, None, None, false)

  const Xcode: CacheCategory := CacheCategory(
    "🔨 Xcode Cache",
    [
      Home("Library/Developer/Xcode/DerivedData"),
      Home("Library/Developer/Xcode/UserData")
    ],
    false, None, None, false)

  const Gradle: CacheCategory := CacheCategory(
    "🐘 Gradle Cache",
    [Home(".gradle")],
    false, Some("⚠️  Cleaning this will require re-installing modules for mobile projects (first build will be slower)"), None, false)

  const UserCache: CacheCategory := CacheCategory(
    "📁 User Cache Directory",
    [Home(".cache")],
    false, None, None, false)

  const MediaAnalysis: CacheCategory := CacheCategory(
    "🎬 Media Analysis Cache",
    [Home("Library/Containers/com.apple.mediaanalysisd/Data/Library/Caches/com.apple.mediaanalysisd/com.apple.e5rt.e5bundlecache")],
    false, None, None, false)

  const SystemTemp: CacheCategory := CacheCategory(
    "🗑️  System Temp",
    ["/private/var/tmp"],
    true, Some("⚠️  Requires sudo - cleaning system-level temporary files"), None, false)

  const Simulator: CacheCategory := CacheCategory(
    "📱 iOS Simulator Cache",
    ["/Library/Developer/CoreSimulator/Caches"],
    true, Some("⚠️  Requires sudo"), None, false)

  const SystemLogs: CacheCategory := CacheCategory(
    "📝 System Logs",
    ["/Library/Logs"],
    true, Some("⚠️  Requires sudo - cleaning system-level logs"), None, false)

  const Npm: CacheCategory := CacheCategory(
    "📦 NPM Cache",
    [],
    false, None, Some("npm cache clean --force"), false)

  const Pnpm: CacheCategory := CacheCategory(
    "📦 PNPM Store",
    [],
    false, None, Some("pnpm store prune"), false)
}
