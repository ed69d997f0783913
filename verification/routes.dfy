/** The command-palette items of the demo site (apps/demo/src/lib/routes.ts):
    the navigation sections flattened into one list of items, each with an
    id derived from its link. */
module Routes {
  import opened Wrappers
  import opened Strings

  /** An icon component, named by its identifier. */
  type Icon = string

  /** A navigation entry; `caption` is the source's `label`. */
  datatype NavItem = NavItem(caption: string, href: string, icon: Option<Icon>, shortcut: Option<string>)

  datatype NavSection = NavSection(title: string, icon: Option<Icon>, items: seq<NavItem>)

  datatype CommandItem = CommandItem(
    id: string, caption: string, group: string, icon: Option<Icon>, href: string, shortcut: Option<string>)

  /** The site navigation. */
  const Sections: seq<NavSection> := [
    NavSection("Getting Started", None, [
      NavItem("Introduction", "/", Some("Home"), None),
      NavItem("Installation", "/docs/install", Some("Download"), None),
      NavItem("Changelog", "/changelog", Some("History"), None)
    ]),
    NavSection("Actions", Some("MousePointer2"), [
      NavItem("Button", "/components/button", None, None),
      NavItem("ButtonGroup", "/components/button-group", None, None),
      NavItem("SocialButton", "/components/social-button", None, None),
      NavItem("ActionMenu", "/components/action-menu", None, None)
    ]),
    NavSection("Forms", Some("FormInput"), [
      NavItem("Input", "/components/input", None, None),
      NavItem("Textarea", "/components/textarea", None, None),
      NavItem("Select", "/components/select", None, None),
      NavItem("SmartSelect", "/components/smart-select", None, None),
      NavItem("Checkbox", "/components/checkbox", None, None),
      NavItem("Switch", "/components/switch", None, None),
      NavItem("RadioGroup", "/components/radio-group", None, None),
      NavItem("Slider", "/components/slider", None, None),
      NavItem("Form", "/components/form", None, None),
      NavItem("DateRangePicker", "/components/date-range-picker", None, None)
    ]),
    NavSection("Data", Some("LayoutGrid"), [
      NavItem("Badge", "/components/badge", None, None),
      NavItem("StatusBadge", "/components/status-badge", None, None),
      NavItem("Kbd", "/components/kbd", None, None),
      NavItem("Numeric", "/components/numeric", None, None),
      NavItem("Ip", "/components/ip", None, None),
      NavItem("DataTable", "/components/data-table", None, None),
      NavItem("StatsGrid", "/components/stats-grid", None, None),
      NavItem("MetricCard", "/components/metric-card", None, None)
    ]),
    NavSection("Typography", Some("Type"), [
      NavItem("Text", "/components/text", None, None),
      NavItem("Heading", "/components/heading", None, None),
      NavItem("Link", "/components/link", None, None),
      NavItem("CodeBlock", "/components/code-block", None, None),
      NavItem("HighlightedCodeBlock", "/components/highlighted-code-block", None, None),
      NavItem("Divider", "/components/divider", None, None)
    ]),
    NavSection("Containers", Some("Box"), [
      NavItem("Widget", "/components/widget", None, None),
      NavItem("SectionCard", "/components/section-card", None, None),
      NavItem("Panel", "/components/panel", None, None),
      NavItem("PageHeader", "/components/page-header", None, None),
      NavItem("Stack", "/components/stack", None, None),
      NavItem("Grid", "/components/grid", None, None)
    ]),
    NavSection("Navigation", Some("Navigation"), [
      NavItem("Tabs", "/components/tabs", None, None),
      NavItem("Accordion", "/components/accordion", None, None),
      NavItem("Stepper", "/components/stepper", None, None),
      NavItem("Breadcrumb", "/components/breadcrumb", None, None),
      NavItem("ListItem", "/components/list-item", None, None),
      NavItem("Sidebar", "/components/sidebar", None, None),
      NavItem("Header", "/components/header", None, None),
      NavItem("StatusBar", "/components/status-bar", None, None)
    ]),
    NavSection("Overlays", Some("Layers"), [
      NavItem("Modal", "/components/modal", None, None),
      NavItem("ThemeLabModal", "/components/theme-lab-modal", None, None),
      NavItem("SidePanel", "/components/side-panel", None, None),
      NavItem("CommandPalette", "/components/command-palette", None, Some("⌘K")),
      NavItem("Tooltip", "/components/tooltip", None, None),
      NavItem("Popover", "/components/popover", None, None)
    ]),
    NavSection("Feedback", Some("MessageSquare"), [
      NavItem("Alert", "/components/alert", None, None),
      NavItem("Toast", "/components/toast", None, None),
      NavItem("ProgressBar", "/components/progress-bar", None, None),
      NavItem("Skeleton", "/components/skeleton", None, None),
      NavItem("EmptyState", "/components/empty-state", None, None),
      NavItem("NotFound", "/components/not-found", None, None),
      NavItem("ErrorPage", "/components/error-page", None, None)
    ]),
    NavSection("Utilities", Some("Wrench"), [
      NavItem("BrandIcon", "/components/brand-icon", None, None),
      NavItem("Meta", "/components/meta", None, None),
      NavItem("PrivacyToggle", "/components/privacy-toggle", None, None),
      NavItem("RefreshControl", "/components/refresh-control", None, None),
      NavItem("MandelbrotAvatar", "/components/mandelbrot-avatar", None, None),
      NavItem("AssetIcon", "/components/asset-icon", None, None),
      NavItem("RandomName", "/components/random-name", None, None)
    ]),
    NavSection("Agentic", Some("Bot"), [
      NavItem("Message", "/components/message", None, None),
      NavItem("Markdown", "/components/markdown", None, None),
      NavItem("StreamingText", "/components/streaming-text", None, None),
      NavItem("ThinkingIndicator", "/components/thinking-indicator", None, None),
      NavItem("AgentInput", "/components/agent-input", None, None),
      NavItem("MessageList", "/components/message-list", None, None)
    ]),
    NavSection("Charts", Some("BarChart3"), [
      NavItem("Sparkline", "/components/sparkline", None, None),
      NavItem("Gauge", "/components/gauge", None, None),
      NavItem("ProgressRing", "/components/progress-ring", None, None),
      NavItem("EquityChart", "/components/equity-chart", None, None),
      NavItem("BacktestChart", "/components/backtest-chart", None, None)
    ]),
    NavSection("Effects", Some("Sparkles"), [
      NavItem("GridPulseBackground", "/components/grid-pulse-background", None, None),
      NavItem("DelaunayBackground", "/components/delaunay-background", None, None),
      NavItem("IsometricGridBackground", "/components/isometric-grid-background", None, None),
      NavItem("ParticleFlowBackground", "/components/particle-flow-background", None, None),
      NavItem("SupernovaBackground", "/components/supernova-background", None, None),
      NavItem("NebulaOverlay", "/components/nebula-overlay", None, None)
    ])
  ]

  // ---------------------------------------------------------------------------
  // Ids

  /** What one character of a link becomes in an id. */
  function IdChar(c: char): char {
    if c == '/' then '-' else c
  }

  /** `.replace(/^-/, '')`: one leading hyphen removed. */
  function DropLeadingHyphen(s: string): (r: string)
    ensures |s| > 0 && s[0] == '-' ==> r == s[1..]
    ensures !(|s| > 0 && s[0] == '-') ==> r == s
  {
    if |s| > 0 && s[0] == '-' then s[1..] else s
  }

  /** `href.replace(/\//g, '-').replace(/^-/, '')`: every slash becomes a
      hyphen, then a hyphen in front (from a leading slash or hyphen) is
      dropped. */
  function CommandId(href: string): (id: string)
    ensures '/' !in id
    ensures var skip := if |href| > 0 && (href[0] == '/' || href[0] == '-') then 1 else 0;
      |id| == |href| - skip &&
      forall i :: 0 <= i < |id| ==> id[i] == IdChar(href[i + skip])
  {
    ReplaceByChar(href, '/', '-');
    DropLeadingHyphen(ReplaceAll(href, '/', "-"))
  }

  /** A slash followed by a slash-free segment becomes a hyphen followed by
      the segment. */
  lemma SlashSegment(a: string)
    requires '/' !in a
    ensures ReplaceAll("/" + a, '/', "-") == "-" + a
  {
    assert ("/" + a)[0] == '/';
    assert ("/" + a)[1..] == a;
  }

  /** A one-segment link `/a` has id `a`; in particular the root link `/`
      has the empty id. */
  lemma OneSegmentId(a: string)
    requires '/' !in a
    ensures CommandId("/" + a) == a
  {
    SlashSegment(a);
    assert ("-" + a)[1..] == a;
  }

  /** A two-segment link `/a/b` has id `a-b`. */
  lemma TwoSegmentId(a: string, b: string)
    requires '/' !in a && '/' !in b
    ensures CommandId("/" + a + "/" + b) == a + "-" + b
  {
    var href := "/" + a + "/" + b;
    assert href == ("/" + a) + ("/" + b);
    ReplaceAllAppend("/" + a, "/" + b, '/', "-");
    SlashSegment(a);
    SlashSegment(b);
    var replaced := ReplaceAll(href, '/', "-");
    assert replaced == ("-" + a) + ("-" + b);
    assert replaced[1..] == a + "-" + b;
  }

  /** The root link has the empty id. */
  lemma RootId()
    ensures CommandId("/") == []
  {
    OneSegmentId("");
    assert "/" + "" == "/";
  }

  /** The installation page's id. */
  lemma InstallId()
    ensures CommandId("/docs/install") == "docs-install"
  {
    TwoSegmentId("docs", "install");
    assert "/" + "docs" + "/" + "install" == "/docs/install";
    assert "docs" + "-" + "install" == "docs-install";
  }

  // ---------------------------------------------------------------------------
  // Items

  /** The command item of one navigation item: its own icon, or else the
      section's. */
  function ToCommandItem(section: NavSection, item: NavItem): (c: CommandItem)
    ensures c.id == CommandId(item.href) && c.href == item.href
    ensures c.caption == item.caption && c.shortcut == item.shortcut && c.group == section.title
    ensures item.icon.Some? ==> c.icon == item.icon
    ensures item.icon.None? ==> c.icon == section.icon
  {
    CommandItem(CommandId(item.href), item.caption, section.title,
                if item.icon.Some? then item.icon else section.icon, item.href, item.shortcut)
  }

  function SectionItems(section: NavSection): (cs: seq<CommandItem>)
    ensures |cs| == |section.items|
    ensures forall k :: 0 <= k < |cs| ==> cs[k] == ToCommandItem(section, section.items[k])
  {
    seq(|section.items|, k requires 0 <= k < |section.items| => ToCommandItem(section, section.items[k]))
  }

  /** The number of navigation items in all sections. */
  function ItemCount(sections: seq<NavSection>): nat {
    if sections == [] then 0 else ItemCount(sections[..|sections| - 1]) + |sections[|sections| - 1].items|
  }

  /** `getCommandItems`: the sections' items flattened, section by section. */
  function CommandItems(sections: seq<NavSection>): (cs: seq<CommandItem>)
    ensures |cs| == ItemCount(sections)
  {
    if sections == [] then []
    else CommandItems(sections[..|sections| - 1]) + SectionItems(sections[|sections| - 1])
  }

  function GetCommandItems(): (cs: seq<CommandItem>)
    ensures |cs| == 82
  {
    SectionSizes();
    CommandItems(Sections)
  }

  const SectionSizesTable: seq<nat> := [3, 4, 10, 8, 6, 6, 8, 6, 7, 7, 6, 5, 6]

  /** The site has 13 sections holding 82 navigation items. */
  lemma SectionSizes()
    ensures |Sections| == 13
    ensures ItemCount(Sections) == 82
  {
    SectionSizesMatch();
    ItemCountBySizes(Sections, SectionSizesTable);
    SumOfSectionSizes();
  }

  lemma SectionSizesMatch()
    ensures |Sections| == |SectionSizesTable|
    ensures forall i :: 0 <= i < |Sections| ==> |Sections[i].items| == SectionSizesTable[i]
  {
  }

  lemma SumOfSectionSizes()
    ensures Sum(SectionSizesTable) == 82
  {
    var sizes := SectionSizesTable;
    var running := [0, 3, 7, 17, 25, 31, 37, 45, 51, 58, 65, 71, 76, 82];
    var n := 0;
    while n < 13
      invariant 0 <= n <= 13 && Sum(sizes[..n]) == running[n]
    {
      assert sizes[..n + 1][..n] == sizes[..n];
      n := n + 1;
    }
    assert sizes[..13] == sizes;
  }

  function Sum(xs: seq<nat>): nat {
    if xs == [] then 0 else Sum(xs[..|xs| - 1]) + xs[|xs| - 1]
  }

  lemma {:induction false} ItemCountBySizes(sections: seq<NavSection>, sizes: seq<nat>)
    requires |sizes| == |sections|
    requires forall i :: 0 <= i < |sections| ==> |sections[i].items| == sizes[i]
    ensures ItemCount(sections) == Sum(sizes)
  {
    if sections != [] {
      ItemCountBySizes(sections[..|sections| - 1], sizes[..|sizes| - 1]);
    }
  }

  /** Item k of section s is at position ItemCount(sections[..s]) + k: one
      command item per navigation item, sections in order and items in order
      within a section. */
  lemma {:induction false} CommandItemAt(sections: seq<NavSection>, s: nat, k: nat)
    requires s < |sections| && k < |sections[s].items|
    ensures ItemCount(sections[..s]) + k < |CommandItems(sections)|
    ensures CommandItems(sections)[ItemCount(sections[..s]) + k] == ToCommandItem(sections[s], sections[s].items[k])
  {
    var n := |sections|;
    var init := sections[..n - 1];
    if s == n - 1 {
      assert sections[..s] == init;
    } else {
      assert init[..s] == sections[..s];
      CommandItemAt(init, s, k);
    }
  }

  /** Every command item comes from some navigation item. */
  lemma {:induction false} CommandItemFrom(sections: seq<NavSection>, p: nat)
    requires p < |CommandItems(sections)|
    ensures exists s, k ::
      0 <= s < |sections| && 0 <= k < |sections[s].items| &&
      p == ItemCount(sections[..s]) + k &&
      CommandItems(sections)[p] == ToCommandItem(sections[s], sections[s].items[k])
  {
    var n := |sections|;
    var init := sections[..n - 1];
    if p < ItemCount(init) {
      CommandItemFrom(init, p);
      var s, k :| 0 <= s < |init| && 0 <= k < |init[s].items| &&
        p == ItemCount(init[..s]) + k && CommandItems(init)[p] == ToCommandItem(init[s], init[s].items[k]);
      assert init[..s] == sections[..s];
      assert CommandItems(sections)[p] == CommandItems(init)[p];
    } else {
      assert sections[..n - 1] == init;
      var k := p - ItemCount(init);
      assert CommandItems(sections)[p] == SectionItems(sections[n - 1])[k];
    }
  }

  /** No command id contains a slash. */
  lemma IdsHaveNoSlash(sections: seq<NavSection>)
    ensures forall p :: 0 <= p < |CommandItems(sections)| ==> '/' !in CommandItems(sections)[p].id
  {
    forall p | 0 <= p < |CommandItems(sections)| ensures '/' !in CommandItems(sections)[p].id {
      CommandItemFrom(sections, p);
    }
  }
}
