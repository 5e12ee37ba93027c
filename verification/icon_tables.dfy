/** The constant icon tables of xlsd/icons.py: the `LS_ICONS` glyphs by icon
    name, and the two priority lists that map MIME types and file extensions
    to icon names. */
module IconTables {
  import opened CellWidth
  import opened Icons

  /** The glyphs of `LS_ICONS`, by icon name. */
  const LsIconGlyphs: map<string, string> := map[
    "default"     := "\U{2754}",
    "error"       := "\U{1F6AB}",
    "folder"      := "\U{1F4C1}",
    "text"        := "\U{1F4C4}",
    "chart"       := "\U{1F4CA}",
    "music"       := "\U{1F3B5}",
    "video"       := "\U{1F3AC}",
    "photo"       := "\U{1F4F7}",
    "iso"         := "\U{1F4BF}",
    "compressed"  := "\U{1F5DC}",
    "application" := "\U{2699}",
    "rich_text"   := "\U{1F4F0}",
    "stylesheet"  := "\U{1F3A8}",
    "contacts"    := "\U{1F4C7}",
    "calendar"    := "\U{1F4C5}",
    "config"      := "\U{1F527}",
    "lock"        := "\U{1F512}",
    "pirate"      := "\U{1F571}",
    "database"    := "\U{1F5C3}",
    "package"     := "\U{1F4E6}",
    "mail"        := "\U{2709}",
    // operating systems
    "windows"     := "\U{1F377}",
    "linux"       := "\U{1F427}",
    // languages
    "java"        := "\U{2615}",
    "python"      := "\U{1F40D}",
    "php"         := "\U{1F418}",
    "rust"        := "\U{1F980}",
    "lua"         := "\U{1F319}",
    "perl"        := "\U{1F9C5}",
    "c"           := "\U{1D402}",
    "xonsh"       := "\U{1F41A}",
    "haskell"     := "\U{03BB}"
  ]

  /** `MIMETYPE_ICONS`: MIME type patterns and their icon names, most specific
      first. */
  const MimetypeIcons: seq<(string, string)> := [
    ("inode/directory", "folder"),
    // rich text
    ("application/pdf", "rich_text"),
    ("application/vnd.oasis.opendocument.text", "rich_text"),
    ("application/msword", "rich_text"),
    ("application/vnd.openxmlformats-officedocument.wordprocessingml.document", "rich_text"),
    ("text/html", "rich_text"),
    // tabular data and charts
    ("application/vnd.oasis.opendocument.spreadsheet", "chart"),
    ("application/vnd.ms-excel", "chart"),
    ("application/vnd.openxmlformats-officedocument.spreadsheetml.sheet", "chart"),
    ("text/csv", "chart"),
    // Java
    ("application/java-archive", "java"),
    ("application/x-java-applet", "java"),
    // misc
    ("application/x-iso9660-image", "iso"),
    ("application/zip", "compressed"),
    ("application/x-dosexec", "windows"),
    ("text/x-script.python", "python"),
    ("text/x-php", "php"),
    ("application/x-pie-executable", "linux"),
    ("text/vcard", "contacts"),
    ("text/calendar", "calendar"),
    // generic types
    ("text/*", "text"),
    ("application/*", "application"),
    ("image/*", "photo"),
    ("audio/*", "music"),
    ("video/*", "video")
  ]

  /** `EXTENSION_ICONS`: sets of lower-case file extensions and their icon
      names, in priority order. */
  const ExtensionIcons: seq<(set<string>, string)> := [
    // text
    ({"txt", "log"}, "text"),
    ({"json", "yml", "toml", "xml", "ini", "conf", "rc", "cfg", "vbox", "vbox-prev"}, "config"),
    ({"eml"}, "mail"),
    // photo
    ({"jpe", "jpg", "jpeg", "png", "apng", "gif", "bmp", "ico", "tif", "tiff", "tga", "webp", "xpm", "xcf", "svg"}, "photo"),
    // music
    ({"flac", "ogg", "mp3", "wav"}, "music"),
    // video
    ({"avi", "mp4"}, "video"),
    // rich text
    ({"pdf", "odt", "doc", "docx", "html", "htm", "xhtm", "xhtml", "md", "rtf", "tex", "rst"}, "rich_text"),
    // tabular data and charts
    ({"ods", "xls", "xlsx", "csv"}, "chart"),
    // programming languages
    ({"jar", "jad", "java"}, "java"),
    ({"py", "pyc"}, "python"),
    ({"php"}, "php"),
    ({"rs", "rlib", "rmeta"}, "rust"),
    ({"lua"}, "lua"),
    ({"pl"}, "perl"),
    ({"css", "less", "colorscheme", "theme", "xsl"}, "stylesheet"),
    ({"c", "h"}, "c"),
    ({"xsh", "xonshrc"}, "xonsh"),
    ({"hs", "lhs", "hi"}, "haskell"),
    // compressed files
    ({"zip", "7z", "rar", "gz", "xz"}, "compressed"),
    // executables
    ({"exe", "bat", "cmd", "dll"}, "windows"),
    ({"so", "elf", "sh", "zsh", "ksh", "pl", "o"}, "linux"),
    // misc
    ({"iso", "cue"}, "iso"),
    ({"vcard"}, "contacts"),
    ({"ics"}, "calendar"),
    ({"lock", "lck"}, "lock"),
    ({"reg"}, "windows"),
    ({"pkg", "deb", "rpm", "apk"}, "package"),
    ({"db", "sqlite", "sqlite3", "kdbx"}, "database"),
    ({"torrent"}, "pirate")
  ]

  /** Every icon name the two priority lists can produce has a glyph in
      `LS_ICONS`, so looking it up there with `get_or_none` never yields None. */
  lemma TableIconsResolve(wc: WidthFn, lsIcons: IconSet<string>)
    requires Valid(wc, lsIcons)
    requires lsIcons.icons == LsIconGlyphs
    ensures forall i :: 0 <= i < |MimetypeIcons| ==> GetOrNone(wc, lsIcons, MimetypeIcons[i].1).Some?
    ensures forall i :: 0 <= i < |ExtensionIcons| ==> GetOrNone(wc, lsIcons, ExtensionIcons[i].1).Some?
  {
  }
}
