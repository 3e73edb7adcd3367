/**
  The third-party protection rules of lib/core/html-obfuscator.js and
  lib/core/css-obfuscator.js: a class or id name is left alone when it is on a
  whitelist or matches one of a list of patterns anchored at the start. The
  two files carry their own lists; the stylesheet lists are shorter.
 */
module Protection {
  import opened JsString

  /** Which file's lists are consulted. */
  datatype Rules = HtmlRules | CssRules

  /** The pattern `^p`: `n` starts with `p`. */
  predicate Prefix(n: string, p: string) {
    p == [] || (n != [] && n[0] == p[0] && Prefix(n[1..], p[1..]))
  }

  /** The pattern `^p\w+`: the prefix and at least one word character after it (the pattern
      is not anchored at the end, so the rest of the name does not matter). */
  predicate PrefixWord(n: string, p: string) { Prefix(n, p) && |p| < |n| && IsWordChar(n[|p|]) }

  lemma {:induction false} PrefixIsSlice(n: string, p: string)
    ensures Prefix(n, p) <==> |p| <= |n| && n[..|p|] == p
  {
    if p != [] && n != [] {
      PrefixIsSlice(n[1..], p[1..]);
      if |p| <= |n| && n[..|p|] == p {
        assert n[1..][..|p| - 1] == p[1..];
      }
      if Prefix(n, p) {
        assert n[..|p|] == [n[0]] + n[1..][..|p| - 1];
      }
    }
  }

  /** The `thirdPartyClasses` set of lib/core/html-obfuscator.js. */
  predicate HtmlClassWhitelisted(n: string) {
    n == "container" || n == "container-fluid" || n == "row" || n == "col" || n == "col-auto" ||
    n == "btn" || n == "btn-primary" || n == "btn-secondary" || n == "btn-success" || n == "btn-danger" || n == "btn-warning" || n == "btn-info" || n == "btn-light" || n == "btn-dark" ||
    n == "card" || n == "card-body" || n == "card-header" || n == "card-footer" || n == "card-title" || n == "card-text" ||
    n == "navbar" || n == "nav" || n == "nav-item" || n == "nav-link" || n == "navbar-brand" || n == "navbar-nav" ||
    n == "modal" || n == "modal-dialog" || n == "modal-content" || n == "modal-header" || n == "modal-body" || n == "modal-footer" ||
    n == "form-control" || n == "form-group" || n == "form-check" || n == "form-select" ||
    n == "table" || n == "table-striped" || n == "table-bordered" || n == "table-hover" ||
    n == "alert" || n == "alert-primary" || n == "alert-danger" || n == "alert-warning" || n == "alert-info" || n == "alert-success" ||
    n == "dropdown" || n == "dropdown-menu" || n == "dropdown-item" || n == "dropdown-toggle" ||
    n == "pagination" || n == "page-item" || n == "page-link" ||
    n == "d-none" || n == "d-block" || n == "d-inline" || n == "d-flex" || n == "justify-content-center" || n == "text-center" ||
    n == "flex" || n == "grid" || n == "block" || n == "inline" || n == "hidden" ||
    n == "text-center" || n == "text-left" || n == "text-right" || n == "text-justify" ||
    n == "font-bold" || n == "font-medium" || n == "font-light" || n == "font-normal" ||
    n == "text-sm" || n == "text-base" || n == "text-lg" || n == "text-xl" || n == "text-2xl" ||
    n == "p-1" || n == "p-2" || n == "p-4" || n == "p-8" || n == "m-1" || n == "m-2" || n == "m-4" || n == "m-8" ||
    n == "w-full" || n == "h-full" || n == "w-auto" || n == "h-auto" ||
    n == "bg-white" || n == "bg-gray-100" || n == "bg-blue-500" || n == "text-white" || n == "text-black" ||
    n == "ui-widget" || n == "ui-dialog" || n == "ui-button" || n == "ui-tabs" || n == "ui-accordion" ||
    n == "ui-datepicker" || n == "ui-slider" || n == "ui-progressbar" ||
    n == "fa" || n == "fas" || n == "far" || n == "fab" || n == "fal" || n == "fad" ||
    n == "slider" || n == "carousel" || n == "tooltip" || n == "popover" || n == "lightbox" ||
    n == "datepicker" || n == "colorpicker" || n == "select2" || n == "chosen" ||
    n == "swiper" || n == "owl-carousel" || n == "slick" || n == "fancybox" ||
    n == "google-analytics" || n == "gtm" || n == "facebook-pixel" || n == "mixpanel" ||
    n == "track-click" || n == "track-view" || n == "analytics-event" ||
    n == "sr-only" || n == "visually-hidden" || n == "screen-reader-text" ||
    n == "clearfix" || n == "float-left" || n == "float-right" || n == "center-block"
  }

  /** The `thirdPartyPatterns` for classes of lib/core/html-obfuscator.js. */
  predicate HtmlClassPatternMatches(n: string) {
    PrefixWord(n, "col-") || Prefix(n, "btn-outline-") || PrefixWord(n, "text-") || PrefixWord(n, "bg-") ||
    PrefixWord(n, "border-") || PrefixWord(n, "fa-") || PrefixWord(n, "ui-") || Prefix(n, "swiper-") ||
    Prefix(n, "owl-") || Prefix(n, "slick-") || Prefix(n, "wp-") || Prefix(n, "woocommerce-") ||
    Prefix(n, "elementor-") || Prefix(n, "vc_") || Prefix(n, "gtm-") || Prefix(n, "ga-") ||
    Prefix(n, "fb-") || Prefix(n, "twitter-") || Prefix(n, "instagram-") || Prefix(n, "recaptcha") ||
    Prefix(n, "stripe-") || Prefix(n, "paypal-")
  }

  /** The `thirdPartyIds` set of lib/core/html-obfuscator.js. */
  predicate HtmlIdWhitelisted(n: string) {
    n == "google-analytics" || n == "gtag" || n == "facebook-jssdk" || n == "twitter-wjs" ||
    n == "stripe-checkout" || n == "paypal-button" || n == "recaptcha" ||
    n == "disqus_thread" || n == "fb-root" || n == "instagram-embed" ||
    n == "gtm-container" || n == "google-tag-manager" || n == "facebook-pixel" ||
    n == "mixpanel-script" || n == "amplitude-script" || n == "hotjar-script" ||
    n == "wp-admin-bar" || n == "wpadminbar" || n == "wp-toolbar" ||
    n == "wordpress-embed" || n == "wp-custom-css" ||
    n == "woocommerce-cart" || n == "shopify-checkout" || n == "magento-cart" ||
    n == "add-to-cart" || n == "buy-now" || n == "checkout-button" ||
    n == "search-form" || n == "contact-form" || n == "newsletter-form" ||
    n == "login-form" || n == "registration-form" || n == "comment-form" ||
    n == "shopping-cart" || n == "user-menu" || n == "main-navigation" ||
    n == "footer-widgets" || n == "sidebar-primary" || n == "content-main"
  }

  /** The `thirdPartyPatterns` for ids of lib/core/html-obfuscator.js. */
  predicate HtmlIdPatternMatches(n: string) {
    Prefix(n, "gtm-") || Prefix(n, "ga-") || Prefix(n, "fb-") || Prefix(n, "twitter-") ||
    Prefix(n, "instagram-") || Prefix(n, "youtube-") || Prefix(n, "linkedin-") || Prefix(n, "pinterest-") ||
    Prefix(n, "wp-") || Prefix(n, "woocommerce-") || Prefix(n, "stripe-") || Prefix(n, "paypal-") ||
    Prefix(n, "mailchimp-") || Prefix(n, "hubspot-") || Prefix(n, "salesforce-") || Prefix(n, "zendesk-") ||
    Prefix(n, "intercom-") || Prefix(n, "hotjar-") || Prefix(n, "mixpanel-") || Prefix(n, "amplitude-") ||
    Prefix(n, "recaptcha") || Prefix(n, "disqus")
  }

  /** The `thirdPartyClasses` set of lib/core/css-obfuscator.js. */
  predicate CssClassWhitelisted(n: string) {
    n == "container" || n == "container-fluid" || n == "row" || n == "col" || n == "col-auto" ||
    n == "btn" || n == "btn-primary" || n == "btn-secondary" || n == "btn-success" || n == "btn-danger" ||
    n == "card" || n == "card-body" || n == "navbar" || n == "nav" || n == "modal" || n == "form-control" ||
    n == "table" || n == "alert" || n == "dropdown" || n == "pagination" ||
    n == "d-none" || n == "d-block" || n == "d-flex" || n == "text-center" ||
    n == "flex" || n == "grid" || n == "block" || n == "inline" || n == "hidden" ||
    n == "text-center" || n == "text-left" || n == "text-right" ||
    n == "font-bold" || n == "font-medium" || n == "font-light" ||
    n == "text-sm" || n == "text-base" || n == "text-lg" || n == "text-xl" || n == "text-2xl" ||
    n == "p-1" || n == "p-2" || n == "p-4" || n == "p-8" || n == "m-1" || n == "m-2" || n == "m-4" || n == "m-8" ||
    n == "w-full" || n == "h-full" || n == "bg-white" || n == "text-white" ||
    n == "fa" || n == "fas" || n == "far" || n == "fab" ||
    n == "clearfix" || n == "float-left" || n == "float-right"
  }

  /** The `thirdPartyPatterns` for classes of lib/core/css-obfuscator.js. */
  predicate CssClassPatternMatches(n: string) {
    PrefixWord(n, "col-") || Prefix(n, "btn-outline-") || PrefixWord(n, "text-") || PrefixWord(n, "bg-") ||
    PrefixWord(n, "fa-") || PrefixWord(n, "ui-") || Prefix(n, "wp-") || Prefix(n, "gtm-") ||
    Prefix(n, "ga-")
  }

  /** The `thirdPartyIds` set of lib/core/css-obfuscator.js. */
  predicate CssIdWhitelisted(n: string) {
    n == "google-analytics" || n == "gtag" || n == "facebook-jssdk" || n == "stripe-checkout" ||
    n == "paypal-button" || n == "recaptcha" || n == "disqus_thread" || n == "fb-root" ||
    n == "wp-admin-bar" || n == "search-form" || n == "contact-form"
  }

  /** The `thirdPartyPatterns` for ids of lib/core/css-obfuscator.js. */
  predicate CssIdPatternMatches(n: string) {
    Prefix(n, "gtm-") || Prefix(n, "ga-") || Prefix(n, "fb-") || Prefix(n, "wp-") ||
    Prefix(n, "stripe-") || Prefix(n, "paypal-")
  }

  /** The class name is a third-party name under these rules. */
  predicate ClassProtected(rules: Rules, n: string) {
    match rules
    case HtmlRules => HtmlClassWhitelisted(n) || HtmlClassPatternMatches(n)
    case CssRules => CssClassWhitelisted(n) || CssClassPatternMatches(n)
  }

  /** The id is a third-party id under these rules. */
  predicate IdProtected(rules: Rules, n: string) {
    match rules
    case HtmlRules => HtmlIdWhitelisted(n) || HtmlIdPatternMatches(n)
    case CssRules => CssIdWhitelisted(n) || CssIdPatternMatches(n)
  }

  /** `shouldObfuscateClass(className, protectThirdParty)` of either file: every name without
      protection, otherwise exactly the names that are not third-party names. */
  function ShouldObfuscateClass(rules: Rules, name: string, protectThirdParty: bool): (b: bool)
    ensures !protectThirdParty ==> b
    ensures protectThirdParty ==> (b <==> !ClassProtected(rules, name))
  {
    !protectThirdParty || !ClassProtected(rules, name)
  }

  /** `shouldObfuscateId(id, protectThirdParty)` of either file. */
  function ShouldObfuscateId(rules: Rules, name: string, protectThirdParty: bool): (b: bool)
    ensures !protectThirdParty ==> b
    ensures protectThirdParty ==> (b <==> !IdProtected(rules, name))
  {
    !protectThirdParty || !IdProtected(rules, name)
  }

  // ---------------------------------------------------------------- the two files compared

  lemma {:induction false} CssClassWhitelistWithinHtml(n: string)
    ensures CssClassWhitelisted(n) ==> HtmlClassWhitelisted(n)
  {
  }

  lemma {:induction false} CssClassPatternsWithinHtml(n: string)
    ensures CssClassPatternMatches(n) ==> HtmlClassPatternMatches(n)
  {
  }

  /** Every class name the stylesheet rules protect, the document rules protect too, so a
      name renamed in documents is renamed in stylesheets. */
  lemma {:induction false} CssClassProtectionWithinHtml(n: string)
    ensures ClassProtected(CssRules, n) ==> ClassProtected(HtmlRules, n)
    ensures ShouldObfuscateClass(HtmlRules, n, true) ==> ShouldObfuscateClass(CssRules, n, true)
  {
    CssClassWhitelistWithinHtml(n);
    CssClassPatternsWithinHtml(n);
  }

  /** Every id the stylesheet rules protect, the document rules protect too. */
  lemma {:induction false} CssIdProtectionWithinHtml(n: string)
    ensures IdProtected(CssRules, n) ==> IdProtected(HtmlRules, n)
    ensures ShouldObfuscateId(HtmlRules, n, true) ==> ShouldObfuscateId(CssRules, n, true)
  {
  }

  /** The converse fails: `btn-warning` is protected in documents ... */
  lemma {:induction false} BtnWarningProtectedInHtml()
    ensures !ShouldObfuscateClass(HtmlRules, "btn-warning", true)
  {
  }

  lemma {:induction false} BtnWarningNotListedInCss() ensures !CssClassWhitelisted("btn-warning") { }
  lemma {:induction false} BtnWarningMatchesNoCssPattern() ensures !CssClassPatternMatches("btn-warning") { }

  /** ... but renamed in stylesheets. */
  lemma {:induction false} BtnWarningRenamedInCss()
    ensures ShouldObfuscateClass(CssRules, "btn-warning", true)
  {
    BtnWarningNotListedInCss();
    BtnWarningMatchesNoCssPattern();
  }

  /** The converse fails for ids too: `add-to-cart` is protected in documents ... */
  lemma {:induction false} AddToCartProtectedInHtml()
    ensures !ShouldObfuscateId(HtmlRules, "add-to-cart", true)
  {
  }

  /** ... but renamed in stylesheets. */
  lemma {:induction false} AddToCartRenamedInCss()
    ensures ShouldObfuscateId(CssRules, "add-to-cart", true)
  {
  }

  /** A whitelisted class name. */
  lemma {:induction false} ScreenReaderClassProtected()
    ensures !ShouldObfuscateClass(HtmlRules, "sr-only", true)
  {
  }

  /** Bootstrap columns are caught by `^col-\w+`. */
  lemma {:induction false} ColumnClassProtected()
    ensures !ShouldObfuscateClass(HtmlRules, "col-md-6", true)
  {
    assert PrefixWord("col-md-6", "col-");
  }

  /** Visual Composer classes are caught by `^vc_`. */
  lemma {:induction false} VisualComposerClassProtected()
    ensures !ShouldObfuscateClass(HtmlRules, "vc_row", true)
  {
    assert Prefix("vc_row", "vc_");
  }

  lemma {:induction false} YoutubePlayerMatchesPattern() ensures HtmlIdPatternMatches("youtube-player") {
    assert Prefix("youtube-player", "youtube-");
  }

  /** Embedded players are caught by `^youtube-`. */
  lemma {:induction false} YoutubeIdProtected()
    ensures !ShouldObfuscateId(HtmlRules, "youtube-player", true)
  {
    YoutubePlayerMatchesPattern();
  }

  lemma {:induction false} HeroTitleNotListed() ensures !HtmlClassWhitelisted("hero-title") { }
  lemma {:induction false} HeroTitleMatchesNoPattern() ensures !HtmlClassPatternMatches("hero-title") { }

  /** A site's own class name is renamed. */
  lemma {:induction false} OwnClassRenamed()
    ensures ShouldObfuscateClass(HtmlRules, "hero-title", true)
  {
    HeroTitleNotListed();
    HeroTitleMatchesNoPattern();
  }
}
