/**
 * `generateReplyForThread` (src/gemini/client.js): the prompt built from a
 * thread's history and the fallback that turns every backend outcome into
 * non-empty reply text.
 */
module Prompt {
  import opened Store

  /** How many of the most recent posts the prompt shows. */
  const WindowSize := 20

  const UserLabel := "Анон"
  const AiLabel := "Нейросеть"

  const EntryOpen := "[Пост #"
  const EntryFrom := " от "
  const EntryClose := "]:\n"
  const EntrySeparator := "\n---\n"

  const TaskLine := "\nТвоя задача: Написать следующий пост в этот тред."

  const NotConfigured := "Системное сообщение: API ключ нейросети не настроен."
  const Silent := "... (нейросеть промолчала)"
  const Unavailable := "Не удалось получить ответ нейросети. Возможно, сервис перегружен или запрос отфильтрован."

  // ------------------------------------------------------ decimal post ids

  predicate IsDigit(c: char)
  {
    '0' <= c <= '9'
  }

  predicate AllDigits(s: string)
  {
    forall i :: 0 <= i < |s| ==> IsDigit(s[i])
  }

  function DigitChar(d: nat): (c: char)
    requires d < 10
    ensures IsDigit(c) && c as int - '0' as int == d
  {
    (48 + d) as char
  }

  /** `${n}` for a non-negative integer: its decimal digits, no leading zero. */
  function Decimal(n: nat): (s: string)
    ensures |s| > 0 && AllDigits(s)
    ensures n > 0 ==> s[0] != '0'
    decreases n
  {
    if n < 10 then [DigitChar(n)] else Decimal(n / 10) + [DigitChar(n % 10)]
  }

  /** The number a string of decimal digits denotes. */
  function DecimalValue(s: string): nat
    requires AllDigits(s)
    decreases |s|
  {
    if |s| == 0 then 0
    else 10 * DecimalValue(s[..|s| - 1]) + (s[|s| - 1] as int - '0' as int)
  }

  /** Reading a rendered id back gives the id: distinct posts get distinct markers. */
  lemma {:induction false} DecimalRoundTrip(n: nat)
    ensures DecimalValue(Decimal(n)) == n
    decreases n
  {
    var s := Decimal(n);
    if n >= 10 {
      DecimalRoundTrip(n / 10);
      assert s[..|s| - 1] == Decimal(n / 10);
    }
  }

  // ------------------------------------------------------------- rendering

  /** `p.author_type === 'user' ? 'Анон' : 'Нейросеть'`. */
  function Label(authorType: string): (r: string)
    ensures r == UserLabel <==> authorType == UserType
    ensures r == AiLabel <==> authorType != UserType
  {
    if authorType == UserType then UserLabel else AiLabel
  }

  /** `posts.slice(-20)`: the most recent posts, oldest first. */
  function Window(posts: seq<Post>): (w: seq<Post>)
    ensures |w| == if |posts| < WindowSize then |posts| else WindowSize
    ensures posts[..|posts| - |w|] + w == posts
  {
    if |posts| <= WindowSize then posts else posts[|posts| - WindowSize..]
  }

  /** The context header: the board slug and title, then the thread title. */
  function Header(boardSlug: string, boardTitle: string, threadTitle: string): string
  {
    "Контекст:\nБорда: /" + boardSlug + "/ - " + boardTitle + "\nТред: " + threadTitle + "\n\n"
  }

  /** The text one post contributes to the prompt. */
  function Entry(p: Post): string
  {
    EntryOpen + Decimal(p.id) + EntryFrom + Label(p.authorType) + EntryClose + p.content + EntrySeparator
  }

  /** The texts `f` gives the posts of `ps`, concatenated in order. */
  function Joined(f: Post -> string, ps: seq<Post>): string
    decreases |ps|
  {
    if |ps| == 0 then "" else f(ps[0]) + Joined(f, ps[1..])
  }

  /** The entries of `ps`, concatenated in order. */
  function Entries(ps: seq<Post>): string
  {
    Joined(Entry, ps)
  }

  /** The prompt sent to the model: it opens with the context header and
      closes with the task line, and a history of at most twenty posts is
      rendered in full. */
  function Render(boardSlug: string, boardTitle: string, threadTitle: string, posts: seq<Post>): (r: string)
    ensures var h := Header(boardSlug, boardTitle, threadTitle);
            |r| >= |h| + |TaskLine| && r[..|h|] == h && r[|r| - |TaskLine|..] == TaskLine
    ensures |posts| <= WindowSize ==> r == Header(boardSlug, boardTitle, threadTitle) + Entries(posts) + TaskLine
  {
    var h := Header(boardSlug, boardTitle, threadTitle);
    var r := h + Entries(Window(posts)) + TaskLine;
    assert |posts| <= WindowSize ==> Window(posts) == posts by {
      assert posts[..0] == [];
    }
    assert r[..|h|] == h;
    r
  }

  lemma {:induction false} JoinedAppend(f: Post -> string, a: seq<Post>, b: seq<Post>)
    ensures Joined(f, a + b) == Joined(f, a) + Joined(f, b)
    decreases |a|
  {
    if |a| == 0 {
      assert a + b == b;
    } else {
      JoinedAppend(f, a[1..], b);
      assert (a + b)[1..] == a[1..] + b;
      assert (a + b)[0] == a[0];
      Assoc(f(a[0]), Joined(f, a[1..]), Joined(f, b));
    }
  }

  lemma JoinedSnoc(f: Post -> string, ps: seq<Post>, i: nat)
    requires i < |ps|
    ensures Joined(f, ps[..i + 1]) == Joined(f, ps[..i]) + f(ps[i])
  {
    assert ps[..i + 1] == ps[..i] + [ps[i]];
    JoinedAppend(f, ps[..i], [ps[i]]);
    assert [ps[i]][1..] == [];
  }

  lemma JoinedAt(f: Post -> string, ps: seq<Post>, i: nat)
    requires i < |ps|
    ensures Joined(f, ps) == Joined(f, ps[..i]) + f(ps[i]) + Joined(f, ps[i + 1..])
  {
    assert ps == ps[..i + 1] + ps[i + 1..];
    JoinedAppend(f, ps[..i + 1], ps[i + 1..]);
    JoinedSnoc(f, ps, i);
  }

  /** The entries of two lists one after the other are the entries of the
      lists joined. */
  lemma EntriesAppend(a: seq<Post>, b: seq<Post>)
    ensures Entries(a + b) == Entries(a) + Entries(b)
  {
    JoinedAppend(Entry, a, b);
  }

  /** Extending a list by one post extends its entries by that post's entry. */
  lemma EntriesSnoc(ps: seq<Post>, i: nat)
    requires i < |ps|
    ensures Entries(ps[..i + 1]) == Entries(ps[..i]) + Entry(ps[i])
  {
    JoinedSnoc(Entry, ps, i);
  }

  /** The entry of the `i`-th post sits between the entries before it and
      the entries after it. */
  lemma EntriesAt(ps: seq<Post>, i: nat)
    requires i < |ps|
    ensures Entries(ps) == Entries(ps[..i]) + Entry(ps[i]) + Entries(ps[i + 1..])
  {
    JoinedAt(Entry, ps, i);
  }

  /** The window's `i`-th post is the input's post at `|posts| - |w| + i`. */
  lemma WindowAt(posts: seq<Post>, i: nat)
    requires i < |Window(posts)|
    ensures Window(posts)[i] == posts[|posts| - |Window(posts)| + i]
  {
    var w := Window(posts);
    var older := posts[..|posts| - |w|];
    assert posts == older + w;
    assert (older + w)[|older| + i] == w[i];
  }

  /** The prompt is the header, then the entry of every post of the window in
      window order, then the task line: the entry of the window's `i`-th post
      comes right after the entries of the posts before it. */
  lemma RenderLayout(boardSlug: string, boardTitle: string, threadTitle: string,
                     posts: seq<Post>, i: nat)
    requires i < |Window(posts)|
    ensures var w := Window(posts);
            && w[i] == posts[|posts| - |w| + i]
            && Render(boardSlug, boardTitle, threadTitle, posts)
               == Header(boardSlug, boardTitle, threadTitle)
                  + Entries(w[..i]) + Entry(w[i]) + Entries(w[i + 1..])
                  + TaskLine
  {
    var w := Window(posts);
    WindowAt(posts, i);
    EntriesAt(w, i);
    var h, before, e, after := Header(boardSlug, boardTitle, threadTitle), Entries(w[..i]), Entry(w[i]), Entries(w[i + 1..]);
    Assoc(h, before + e, after);
    Assoc(h, before, e);
  }

  /** Posts older than the most recent twenty do not reach the prompt: two
      histories ending in the same twenty posts render identically. */
  lemma RenderSameRecentPosts(boardSlug: string, boardTitle: string, threadTitle: string,
                              a: seq<Post>, b: seq<Post>)
    requires |a| >= WindowSize && |b| >= WindowSize
    requires a[|a| - WindowSize..] == b[|b| - WindowSize..]
    ensures Render(boardSlug, boardTitle, threadTitle, a) == Render(boardSlug, boardTitle, threadTitle, b)
  {
    assert Window(a) == a[|a| - WindowSize..];
    assert Window(b) == b[|b| - WindowSize..];
  }

  /** The string built by `generateReplyForThread`: start from the header,
      append one entry per post of the window, then the task line. */
  method BuildPrompt(boardSlug: string, boardTitle: string, threadTitle: string, posts: seq<Post>)
    returns (historyText: string)
    ensures historyText == Render(boardSlug, boardTitle, threadTitle, posts)
  {
    var header := Header(boardSlug, boardTitle, threadTitle);
    historyText := header;
    var from := if |posts| > WindowSize then |posts| - WindowSize else 0;
    var relevant := posts[from..];
    assert relevant == Window(posts);
    var i := 0;
    while i < |relevant|
      invariant 0 <= i <= |relevant|
      invariant historyText == header + Entries(relevant[..i])
    {
      EntriesSnoc(relevant, i);
      Assoc(header, Entries(relevant[..i]), Entry(relevant[i]));
      historyText := historyText + Entry(relevant[i]);
      i := i + 1;
    }
    assert relevant[..i] == relevant;
    historyText := historyText + TaskLine;
  }

  // ------------------------------------------- an entry identifies its post

  lemma CancelPrefix(a: string, x: string, y: string)
    requires a + x == a + y
    ensures x == y
  {
    assert x == (a + x)[|a|..];
    assert y == (a + y)[|a|..];
  }

  lemma CancelSuffix(x: string, y: string, a: string)
    requires x + a == y + a
    ensures x == y
  {
    assert x == (x + a)[..|x|];
    assert y == (y + a)[..|y|];
  }

  lemma Assoc(a: string, b: string, c: string)
    ensures (a + b) + c == a + (b + c)
  {
  }

  /** In a digit run followed by a non-digit, the run ends at its own length. */
  lemma FirstNonDigit(d: string, x: string)
    requires AllDigits(d) && |x| > 0 && !IsDigit(x[0])
    ensures !IsDigit((d + x)[|d|])
    ensures forall k :: 0 <= k < |d| ==> IsDigit((d + x)[k])
  {
  }

  /** A digit run followed by a non-digit can be split off in one way only. */
  lemma DigitRunUnique(d1: string, x1: string, d2: string, x2: string)
    requires AllDigits(d1) && AllDigits(d2)
    requires |x1| > 0 && !IsDigit(x1[0]) && |x2| > 0 && !IsDigit(x2[0])
    requires d1 + x1 == d2 + x2
    ensures d1 == d2 && x1 == x2
  {
    var s := d1 + x1;
    FirstNonDigit(d1, x1);
    FirstNonDigit(d2, x2);
    assert |d1| == |d2|;
    assert d1 == s[..|d1|] == d2;
    assert x1 == s[|d1|..] == x2;
  }

  /** A text shaped `o + digits + f + label + c + content + sep`, where `f`
      starts with a non-digit and the two candidate labels are equal or
      differ in their first character, has only one such decomposition. */
  lemma EntryShapeUnique(o: string, f: string, c: string, sep: string,
                         d1: string, l1: string, c1: string,
                         d2: string, l2: string, c2: string)
    requires AllDigits(d1) && AllDigits(d2)
    requires |f| > 0 && !IsDigit(f[0])
    requires |l1| > 0 && |l2| > 0 && (l1 == l2 || l1[0] != l2[0])
    requires o + d1 + f + l1 + c + c1 + sep == o + d2 + f + l2 + c + c2 + sep
    ensures d1 == d2 && l1 == l2 && c1 == c2
  {
    var x1 := f + (l1 + (c + c1));
    var x2 := f + (l2 + (c + c2));
    assert o + d1 + f + l1 + c + c1 + sep == o + ((d1 + x1) + sep);
    assert o + d2 + f + l2 + c + c2 + sep == o + ((d2 + x2) + sep);
    CancelPrefix(o, (d1 + x1) + sep, (d2 + x2) + sep);
    CancelSuffix(d1 + x1, d2 + x2, sep);
    DigitRunUnique(d1, x1, d2, x2);
    CancelPrefix(f, l1 + (c + c1), l2 + (c + c2));
    assert (l1 + (c + c1))[0] == l1[0];
    assert (l2 + (c + c2))[0] == l2[0];
    CancelPrefix(l1, c + c1, c + c2);
    CancelPrefix(c, c1, c2);
  }

  /** Equal prompt entries come from posts with the same id, the same content
      and the same label, so an entry names its post unambiguously. */
  lemma EntryIdentifiesPost(p: Post, q: Post)
    requires Entry(p) == Entry(q)
    ensures p.id == q.id && p.content == q.content
    ensures p.authorType == UserType <==> q.authorType == UserType
  {
    assert EntryFrom[0] == ' ';
    assert UserLabel[0] != AiLabel[0];
    EntryShapeUnique(EntryOpen, EntryFrom, EntryClose, EntrySeparator,
                     Decimal(p.id), Label(p.authorType), p.content,
                     Decimal(q.id), Label(q.authorType), q.content);
    DecimalRoundTrip(p.id);
    DecimalRoundTrip(q.id);
  }

  // ---------------------------------------------------- reply and fallback

  /** What the generation backend did with one prompt. */
  datatype Outcome = NoClient | Ok(text: string) | Fault

  /** The text `generateReplyForThread` resolves to for a backend outcome. */
  function Finish(outcome: Outcome): (r: string)
    ensures |r| > 0
    ensures outcome.Ok? && outcome.text != "" ==> r == outcome.text
    ensures outcome.Ok? && outcome.text == "" ==> r == Silent
    ensures outcome.NoClient? ==> r == NotConfigured
    ensures outcome.Fault? ==> r == Unavailable
  {
    match outcome
    case NoClient => NotConfigured
    case Ok(text) => if text != "" then text else Silent
    case Fault => Unavailable
  }

  /** A backend call: returns text or raises. */
  datatype Response = Text(text: string) | Raises

  /** `generateReplyForThread`: with no client configured the backend is not
      consulted; otherwise it sees the rendered prompt once. */
  function GenerateReply(hasClient: bool, backend: string -> Response,
                         boardSlug: string, boardTitle: string, threadTitle: string,
                         posts: seq<Post>): (r: string)
    ensures |r| > 0
  {
    if !hasClient then Finish(NoClient)
    else
      match backend(Render(boardSlug, boardTitle, threadTitle, posts))
      case Text(text) => Finish(Ok(text))
      case Raises => Finish(Fault)
  }

  /** Without a client the reply is the fixed notice whatever the backend would do. */
  lemma NoClientIgnoresBackend(b1: string -> Response, b2: string -> Response,
                               boardSlug: string, boardTitle: string, threadTitle: string,
                               posts: seq<Post>)
    ensures GenerateReply(false, b1, boardSlug, boardTitle, threadTitle, posts) == NotConfigured
    ensures GenerateReply(false, b1, boardSlug, boardTitle, threadTitle, posts)
         == GenerateReply(false, b2, boardSlug, boardTitle, threadTitle, posts)
  {
  }

  /** With a client, a non-empty backend text is the reply, an empty one
      becomes the silence notice and a raised error becomes the unavailable
      notice; no error escapes. */
  lemma ReplyFromBackend(backend: string -> Response, boardSlug: string, boardTitle: string,
                         threadTitle: string, posts: seq<Post>)
    ensures var prompt := Render(boardSlug, boardTitle, threadTitle, posts);
            var r := GenerateReply(true, backend, boardSlug, boardTitle, threadTitle, posts);
            && (backend(prompt).Text? && backend(prompt).text != "" ==> r == backend(prompt).text)
            && (backend(prompt) == Text("") ==> r == Silent)
            && (backend(prompt).Raises? ==> r == Unavailable)
  {
  }

  /** The reply depends on the history only through its last twenty posts. */
  lemma ReplySameRecentPosts(hasClient: bool, backend: string -> Response,
                             boardSlug: string, boardTitle: string, threadTitle: string,
                             a: seq<Post>, b: seq<Post>)
    requires |a| >= WindowSize && |b| >= WindowSize
    requires a[|a| - WindowSize..] == b[|b| - WindowSize..]
    ensures GenerateReply(hasClient, backend, boardSlug, boardTitle, threadTitle, a)
         == GenerateReply(hasClient, backend, boardSlug, boardTitle, threadTitle, b)
  {
    RenderSameRecentPosts(boardSlug, boardTitle, threadTitle, a, b);
  }
}
