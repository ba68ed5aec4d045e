/**
 * The preview-mode entry handler (`GET /api/preview`): it checks the
 * preview secret, looks up the post when a slug is given, turns draft mode
 * on and redirects to the post.
 *
 * The query parameters, the environment (`NODE_ENV`,
 * `SANITY_PREVIEW_SECRET`) and whether the post lookup finds the post are
 * inputs; `None` is a missing parameter or variable.
 */
module PreviewRoute {
  import opened Wrappers

  datatype Response =
    | Text(status: int, body: string)
    | Redirect(path: string)

  /** JavaScript truthiness of an optional string. */
  predicate Present(s: Option<string>)
  {
    s.Some? && s.value != ""
  }

  /** The secret check of lines 12-18: whether the request is answered with 401. */
  predicate SecretRejected(production: bool, secret: Option<string>, expected: Option<string>)
  {
    if production then !Present(secret) || !Present(expected) || secret != expected
    else Present(secret) && Present(expected) && secret != expected
  }

  /** In production only a non-empty secret equal to a non-empty expected secret passes. */
  lemma ProductionSecret(secret: Option<string>, expected: Option<string>)
    ensures !SecretRejected(true, secret, expected) <==>
      secret.Some? && expected.Some? && secret.value != "" && secret.value == expected.value
  {
  }

  /** Outside production a missing or empty secret passes, as does a missing or empty expected secret. */
  lemma DevelopmentSecret(secret: Option<string>, expected: Option<string>)
    ensures SecretRejected(false, secret, expected) <==>
      secret.Some? && expected.Some? && secret.value != "" && expected.value != "" && secret.value != expected.value
    ensures !Present(secret) ==> !SecretRejected(false, secret, expected)
  {
  }

  /** Whatever passes in production passes outside it. */
  lemma ProductionIsStricter(secret: Option<string>, expected: Option<string>)
    ensures SecretRejected(false, secret, expected) ==> SecretRejected(true, secret, expected)
  {
  }

  /** `slug ? `/blog/${slug}` : '/blog'`. */
  function TargetPath(slug: string): (path: string)
    ensures slug == "" ==> path == "/blog"
    ensures slug != "" ==> |path| == 6 + |slug| && path[..6] == "/blog/" && path[6..] == slug
  {
    if slug != "" then "/blog/" + slug else "/blog"
  }

  /** Different slugs lead to different paths. */
  lemma TargetPathInjective(a: string, b: string)
    requires a != b
    ensures TargetPath(a) != TargetPath(b)
  {
    if a != "" && b != "" {
      assert TargetPath(a)[6..] == a;
    }
  }

  /** The handler's answer as a function of its inputs; `postFound` is only read for a non-empty slug. */
  function Decide(production: bool, secret: Option<string>, expected: Option<string>,
                  slugParam: Option<string>, postFound: bool): Response
  {
    var slug := slugParam.GetOr("");
    if SecretRejected(production, secret, expected) then Text(401, "Invalid secret")
    else if slug != "" && !postFound then Text(404, "Post not found")
    else Redirect(TargetPath(slug))
  }

  /**
   * A rejected secret gives 401 before the post is looked up; a missing post
   * then gives 404; everything else redirects to the target path.
   */
  lemma DecisionOrder(production: bool, secret: Option<string>, expected: Option<string>,
                      slugParam: Option<string>, postFound: bool)
    ensures var r := Decide(production, secret, expected, slugParam, postFound);
      var slug := if slugParam.Some? then slugParam.value else "";
      && (SecretRejected(production, secret, expected) ==> r == Text(401, "Invalid secret"))
      && (!SecretRejected(production, secret, expected) && slug != "" && !postFound ==> r == Text(404, "Post not found"))
      && (r.Redirect? <==> !SecretRejected(production, secret, expected) && (slug == "" || postFound))
      && (r.Redirect? ==> r.path == TargetPath(slug))
  {
  }

  /** The per-client draft-mode state the handler switches on. */
  class PreviewSession {
    var draftEnabled: bool

    constructor()
      ensures !draftEnabled
    {
      draftEnabled := false;
    }

    /** `GET`: answers as `Decide` says and turns draft mode on only when it redirects. */
    method Get(production: bool, secret: Option<string>, expected: Option<string>,
               slugParam: Option<string>, postFound: bool) returns (response: Response)
      modifies this
      ensures response == Decide(production, secret, expected, slugParam, postFound)
      ensures draftEnabled == (old(draftEnabled) || response.Redirect?)
      ensures response.Text? ==> draftEnabled == old(draftEnabled)
    {
      var slug := slugParam.GetOr("");
      if production {
        if !Present(secret) || !Present(expected) || secret != expected {
          return Text(401, "Invalid secret");
        }
      } else if Present(secret) && Present(expected) && secret != expected {
        return Text(401, "Invalid secret");
      }
      var targetPath := TargetPath(slug);
      if slug != "" {
        if !postFound {
          return Text(404, "Post not found");
        }
      }
      draftEnabled := true;
      response := Redirect(targetPath);
    }
  }
}
