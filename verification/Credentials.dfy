/** Which server a command talks to and which key, if any, goes with it. */
module Credentials {
  import opened Text
  import opened BaseURL

  const DEFAULT_SERVER := "http://localhost:9090"

  /** The credentials file: absent, unreadable or malformed, or an object. */
  datatype File = NoFile | BadFile | Object(url: string, key: string)

  datatype Saved = Saved(url: string, key: string)

  datatype Load = LoadFailed | Loaded(saved: Option<Saved>)

  /** LoadCredentials. */
  function Read(v6: IPv6, f: File): Load {
    match f
    case NoFile => Loaded(None)
    case BadFile => LoadFailed
    case Object(url, key) =>
      if url == "" || Canonical(v6, url).None? then LoadFailed
      else Loaded(Some(Saved(Canonical(v6, url).value, key)))
  }

  // ---- the local machine ------------------------------------------------

  /** isLoopbackHost: localhost, 127.0.0.0/8, or ::1; a mapped IPv4 address is not. */
  predicate Loopback(v6: IPv6, host: string) {
    var h := TrimDot(Lower(host));
    h == "localhost" || (IPv4(h) && SplitOn(h, '.', "")[0] == "127") || v6(h) == Some("::1")
  }

  /** isCleartextRemote, on a canonical URL. */
  predicate CleartextRemote(v6: IPv6, url: string) {
    && Cut(url).Some? && Cut(url).value.scheme == "http" && CutAuthority(Cut(url).value.authority).Some?
    && !Loopback(v6, CutAuthority(Cut(url).value.authority).value.hostname)
  }

  // ---- resolution -------------------------------------------------------

  datatype Resolution = Refused | Resolved(url: string, key: string, mismatch: bool)

  datatype Env = Env(url: string, key: string)

  /** The URL a command names, before the saved one is considered. */
  function Named(flag: string, env: Env): string {
    if flag != "" then flag else env.url
  }

  /** The URL that is selected: the one named, the saved one, or localhost. */
  function Selected(flag: string, env: Env, saved: Option<Saved>): string {
    if Named(flag, env) != "" then Named(flag, env)
    else if saved.Some? then saved.value.url
    else DEFAULT_SERVER
  }

  function Resolve(v6: IPv6, flag: string, env: Env, f: File): Resolution {
    if Named(flag, env) != "" && env.key != "" then
      match Canonical(v6, Named(flag, env))
      case None => Refused
      case Some(url) => Resolved(url, env.key, false)
    else
      match Read(v6, f)
      case LoadFailed => Refused
      case Loaded(saved) =>
        match Canonical(v6, Selected(flag, env, saved))
        case None => Refused
        case Some(url) =>
          Attach(v6, url, env.key, saved)
  }

  /** The key that goes with a canonical URL. */
  function Attach(v6: IPv6, url: string, key: string, saved: Option<Saved>): Resolution {
    if key != "" || saved.None? || saved.value.key == "" then Resolved(url, key, false)
    else if url != saved.value.url then Resolved(url, "", true)
    else if CleartextRemote(v6, url) then Refused
    else Resolved(url, saved.value.key, false)
  }

  /** Without an explicit key, everything rests on the file and the selected URL. */
  lemma ResolveFromFile(v6: IPv6, flag: string, env: Env, f: File)
    requires env.key == ""
    ensures Resolve(v6, flag, env, f)
         == if Read(v6, f).LoadFailed? then Refused
            else
              var url := Canonical(v6, Selected(flag, env, Read(v6, f).saved));
              if url.None? then Refused else Attach(v6, url.value, "", Read(v6, f).saved)
  {
    hide Canonical, Attach;
  }

  method ResolveServer(v6: IPv6, flag: string, env: Env, f: File) returns (r: Resolution)
    ensures r == Resolve(v6, flag, env, f)
  {
    hide CleartextRemote;
    var selected := flag;
    if selected == "" {
      selected := env.url;
    }
    var explicit := selected != "";
    if explicit && env.key != "" {
      var url := CanonicalBaseURL(v6, selected);
      return if url.None? then Refused else Resolved(url.value, env.key, false);
    }
    var load := Read(v6, f);
    if load.LoadFailed? {
      return Refused;
    }
    var saved := load.saved;
    if !explicit {
      selected := if saved.Some? then saved.value.url else DEFAULT_SERVER;
    }
    var url := CanonicalBaseURL(v6, selected);
    if url.None? {
      return Refused;
    }
    r := Resolved(url.value, env.key, false);
    if env.key != "" || saved.None? || saved.value.key == "" {
      return;
    }
    if url.value == saved.value.url {
      if CleartextRemote(v6, url.value) {
        return Refused;
      }
      r := r.(key := saved.value.key);
    } else {
      r := r.(mismatch := true);
    }
  }

  // ---- what is promised -------------------------------------------------

  /** The same file with another key in it. */
  function Rekeyed(f: File, key: string): File {
    if f.Object? then f.(key := key) else f
  }

  /** An explicit key always wins: it is the one sent, whatever key is saved makes no
      difference, and beside an explicit URL not even the file does, readable or not. */
  lemma ExplicitKeyWins(v6: IPv6, flag: string, env: Env, f: File, other: string, g: File)
    requires env.key != ""
    ensures var r := Resolve(v6, flag, env, f);
            && (r.Resolved? ==> r.key == env.key && !r.mismatch)
            && Resolve(v6, flag, env, Rekeyed(f, other)) == r
            && (Named(flag, env) != "" ==> Resolve(v6, flag, env, g) == r)
            && (Named(flag, env) != "" ==> (r.Refused? <==> Canonical(v6, Named(flag, env)).None?))
  {
    hide Canonical, CleartextRemote;
  }

  /** The file that holds a key, and the URL that would be selected. */
  lemma SavedSelection(v6: IPv6, flag: string, env: Env, f: File)
    requires Lawful(v6) && f.Object? && f.url != "" && Canonical(v6, f.url).Some?
    ensures var home := Canonical(v6, f.url).value;
            && Read(v6, f) == Loaded(Some(Saved(home, f.key)))
            && (Canonical(v6, Selected(flag, env, Read(v6, f).saved)) == Some(home) <==>
                  Named(flag, env) == "" || Canonical(v6, Named(flag, env)) == Canonical(v6, f.url))
  {
    CanonicalIsStable(v6, f.url);
    hide Canonical, Lawful;
  }

  /** Without one, the saved key goes out exactly when the selected and the saved URL
      are one server, and that server is not reached in clear text over the network. */
  lemma SavedKeyGoesHome(v6: IPv6, flag: string, env: Env, f: File)
    requires Lawful(v6) && env.key == ""
    ensures var r := Resolve(v6, flag, env, f);
            r.Resolved? && r.key != "" <==>
              && f.Object? && f.key != "" && f.url != "" && Canonical(v6, f.url).Some?
              && (Named(flag, env) == "" || Canonical(v6, Named(flag, env)) == Canonical(v6, f.url))
              && !CleartextRemote(v6, Canonical(v6, f.url).value)
  {
    ResolveFromFile(v6, flag, env, f);
    hide Canonical, CleartextRemote, Resolve, Selected, Named, Lawful;
    if f.Object? && f.url != "" && Canonical(v6, f.url).Some? {
      SavedSelection(v6, flag, env, f);
      hide Read;
    }
  }

  lemma SentKeyIsTheSavedOne(v6: IPv6, flag: string, env: Env, f: File)
    requires env.key == "" && Resolve(v6, flag, env, f).Resolved? && Resolve(v6, flag, env, f).key != ""
    ensures f.Object? && Resolve(v6, flag, env, f).key == f.key
    ensures Canonical(v6, f.url) == Some(Resolve(v6, flag, env, f).url)
  {
    ResolveFromFile(v6, flag, env, f);
    hide Canonical, CleartextRemote, Resolve, Selected;
  }

  /** A saved key that would travel in clear text to another host is refused, not
      dropped: the command gets no connection at all. */
  lemma CleartextIsRefused(v6: IPv6, flag: string, env: Env, f: File)
    requires Lawful(v6) && env.key == "" && f.Object? && f.key != "" && f.url != "" && Canonical(v6, f.url).Some?
    requires Named(flag, env) == "" || Canonical(v6, Named(flag, env)) == Canonical(v6, f.url)
    ensures Resolve(v6, flag, env, f).Refused? <==> CleartextRemote(v6, Canonical(v6, f.url).value)
  {
    ResolveFromFile(v6, flag, env, f);
    SavedSelection(v6, flag, env, f);
    hide Canonical, CleartextRemote, Resolve, Selected, Named, Lawful, Read;
  }

  /** Whatever URL is resolved is canonical. */
  lemma ResolvedIsCanonical(v6: IPv6, flag: string, env: Env, f: File)
    requires Lawful(v6) && Resolve(v6, flag, env, f).Resolved?
    ensures var url := Resolve(v6, flag, env, f).url; Canonical(v6, url) == Some(url)
  {
    var raw := if Named(flag, env) != "" && env.key != "" then Named(flag, env)
               else Selected(flag, env, Read(v6, f).saved);
    CanonicalIsStable(v6, raw);
    hide Canonical, CleartextRemote, Lawful;
  }

  /** A mismatch is reported exactly when no explicit key is given and a readable file
      holds a key for another server than the one selected; that key is not sent. */
  lemma MismatchExactly(v6: IPv6, flag: string, env: Env, f: File)
    requires Resolve(v6, flag, env, f).Resolved?
    ensures var r := Resolve(v6, flag, env, f);
            && (r.mismatch <==> env.key == "" && f.Object? && f.key != "" && f.url != "" && Canonical(v6, f.url).Some?
                                && Canonical(v6, f.url).value != r.url)
            && (r.mismatch ==> r.key == "")
  {
    hide Canonical, CleartextRemote, Named, Selected;
  }
}
