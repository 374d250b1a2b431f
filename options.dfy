/**
 * The options of one `transform` call, resolved once and never changed
 * during the walk.
 */
module Options {
  import opened Wrappers

  /**
   * A `replace_from` regular expression of the shape the tests use: a dot
   * followed by one of the literal extensions, matched globally and
   * case-sensitively. With `capturing` the extension is group 1, as in
   * the default `/\.(png|jpg|jpeg)/g`; without it there is no group, as
   * in `/\.gif/g`.
   */
  datatype Pattern = Pattern(extensions: seq<string>, capturing: bool)

  /**
   * A `replace_to` option: a replacement string for every match of the
   * pattern (with `$1` standing for group 1), or a callback that gets
   * the url and returns the whole new url.
   */
  datatype Replacement = Template(text: string) | Call(f: string -> string)

  /**
   * `imageSize` stands for the file-system lookup behind the size gate:
   * the byte length of the image a local url resolves to, absent when the
   * file cannot be found. How the url is resolved (against the css file,
   * `css_root`, `image_root` or a `localImgFileLocator`) is folded into it.
   */
  datatype Config = Config(
    webpClass: string,
    noWebpClass: Option<string>,
    replaceFrom: Pattern,
    replaceTo: Replacement,
    replaceRemoteImage: bool,
    copyBackgroundSize: bool,
    minAddClassFileSize: nat,
    imageSize: map<string, nat>)

  const DefaultPattern := Pattern(["png", "jpg", "jpeg"], true)

  /** The options `transform(css)` runs with when none are given. */
  function Defaults(): Config {
    Config(".webp", None, DefaultPattern, Template(".webp"), true, false, 0, map[])
  }
}
