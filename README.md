# Dreamina service core, modelled in Dafny

`DreaminaService` (`dreamina_service.py`) drives a headless browser against the
Dreamina image-generation site. It does four things that can be stated without
a browser:

- It loads session cookies from `account.json`. It accepts a bare list or an object
  with a `cookies` entry, then checks every cookie for `name` and `value`.
- It decides whether the session is logged in by looking for login wording in the
  page source.
- It retries a browser action when the element reference goes stale
  (`_retry_on_stale`).
- It runs `generate_image` as three bounded attempt loops: enter the prompt, click
  generate, then poll the page. Polling harvests image URLs from the `<img>`
  elements, keeping generated-image hosts only, once each, in page order.

The browser, the file system and the clock are replaced by data:

- The parsed contents of `account.json` are a `Json` value (`Cookies.AccountFile`).
- Launching Chrome is a `Result<Driver, Exc>`.
- Cookie setup and navigation are an `Option<Exc>`.
- Each attempt of each phase is described by a function from the call number to
  what that call does (`Retrying.Attempt`, `Phases.PhaseTry`, `Phases.ImagePoll`).
- A page's images are a sequence of attribute reads (`Harvest.ImgElement`).

Modules:

- `wrappers.dfy`: `Option`, `Result`.
- `text.dfy`: Python substring test, lowercasing.
- `seqs.dfy`: first match, first-occurrence dedup and its laws.
- `cookies.dfy`: `load_cookies`.
- `auth.dfy`: the login-marker test.
- `retry.dfy`: `_retry_on_stale` and the shared bounded-retry specification.
- `harvest.dfy`: the image-URL scan.
- `phases.dfy`: the three attempt loops of `generate_image`.
- `service.dfy`: the `DreaminaService` class and the response of `generate_image`.

Python's `in` and truthiness are modelled exactly, so the loader behaves as Python
does on unusual input:

- A cookie collection that is an object is scanned by its keys.
- A collection that is a string is scanned by its characters, and so always fails.
- A number or `true` raises `TypeError`.
- A cookie that is a string or a list passes when it contains both words
  (`Cookies.StringCookiePasses`).

## Model

| member | source | states |
|---|---|---|
| Cookies.LoadCookies | dreamina_service.py:22-47 | The loader returns exactly `Load(file)`. A missing file raises FileNotFound. A top level that is neither list nor object raises InvalidFormat. A falsy collection raises NoCookies. Otherwise the first cookie failing the field test decides the error, and if none fails the collection is returned |
| Cookies.CookieFault | dreamina_service.py:44-45 | A cookie passes exactly when Python's `'name' in c` and `'value' in c` both hold. A failing container gives InvalidCookie; a scalar gives the TypeError of `in` |
| Cookies.ListTakenAsIs | dreamina_service.py:33-34 | A top-level list is accepted exactly when it is non-empty and every cookie has both fields. It is then returned unchanged |
| Cookies.ObjectTakesCookiesEntry | dreamina_service.py:35-36 | A top-level object without `cookies` fails with NoCookies, because the default is an empty list. A success returns the `cookies` entry itself |
| Cookies.ObjectActsAsItsList | dreamina_service.py:33-36 | An object whose `cookies` entry is a list loads exactly as that list would at the top level: the same error or the same result |
| Cookies.ShapeAndEmptinessRejected | dreamina_service.py:37-41 | Any other top-level shape gives InvalidFormat. An empty list, or a falsy `cookies` entry, gives NoCookies |
| Cookies.FirstBadCookieDecides | dreamina_service.py:43-45 | With a list, the first cookie lacking a field decides the outcome. It gives InvalidCookie when it is an object, list or string, and its TypeError otherwise |
| Cookies.SuccessIsValidatedCollection | dreamina_service.py:40-47 | On success the result is the normalised collection itself. It is truthy and is a list or an object. Every visited cookie, or every key of an object collection, has both fields |
| Cookies.StringCollectionRejected | dreamina_service.py:43-45 | A non-empty string in place of the cookie list is always rejected with InvalidCookie |
| Cookies.StringCookiePasses | dreamina_service.py:44 | Any string cookie that contains both `name` and `value` as substrings passes the test. A list holding only that string is loaded and returned unchanged |
| Auth.LoginPromptIffMarkerSlice | dreamina_service.py:148-151 | The page shows a login prompt, so the check returns false, exactly when some stretch of it lowercases to `sign in`, `log in` or `login` |
| Auth.CaseInsensitive | dreamina_service.py:148 | Lowercasing the page before the test changes nothing |
| Retrying.RetryFrom | dreamina_service.py:158-164 | Starting at attempt k, the loop makes between 1 and `maxRetries - k` calls. Every call but the last raised a retryable exception. The last call's outcome is delivered, and it is retryable only when the attempts ran out |
| Retrying.Retry | dreamina_service.py:156-165 | With `maxRetries <= 0` there is no call and the result is None. Otherwise there are at most `maxRetries` calls, and the first non-retryable outcome is returned or raised. If all calls are retryable, the last exception is re-raised after exactly `maxRetries` calls |
| Retrying.RetryOnStale | dreamina_service.py:156-165 | The loop's result and call count equal `Retry(call, maxRetries, IsStale)`. The default `maxRetries` is 3 |
| Retrying.FirstNonStaleDecides | dreamina_service.py:158-161 | When calls 0..k-1 are stale and call k is not, the outcome is call k's own, after k+1 calls. A non-stale exception therefore propagates with no retry |
| Retrying.AllStaleReraisesLast | dreamina_service.py:161-163 | When every allowed call is stale, the last stale exception is raised after exactly `maxRetries` calls |
| Seqs.FirstsMembers | dreamina_service.py:239-240 | The deduplicated list holds exactly the values of its input |
| Seqs.FirstsOnce | dreamina_service.py:239-240 | The deduplicated list has no duplicates. Every input value occurs in it exactly once |
| Seqs.FirstsOrdered | dreamina_service.py:239-240 | The deduplicated list orders its values by their first occurrence in the input |
| Harvest.HarvestImageUrls | dreamina_service.py:233-242 | The scan returns `Harvested(dom)`: the exception of the first read that raises something other than a stale reference, or else the qualifying sources with repeats dropped |
| Harvest.HarvestComplete | dreamina_service.py:235-240 | When no read aborts the scan, the list holds every qualifying source exactly once and nothing else. It has no duplicates and is in order of first appearance |
| Harvest.HarvestedAreImages | dreamina_service.py:238 | Every harvested URL is non-empty and contains `ibyteimg.com`, `bytedance` or `capcut` |
| Harvest.StaleReadSkipped | dreamina_service.py:241-242 | An element whose read is stale is skipped. Removing it from the page leaves the result unchanged |
| Phases.LocateAndAct | dreamina_service.py:176-201 | A locate-then-act phase (prompt input, and the same loop at lines 205-224 for the button) equals a bounded retry of 3 attempts. Stale and timeout exceptions are retried; any other exception escapes at once |
| Phases.PhaseGivesUpAfterAllAttempts | dreamina_service.py:195-200 | A phase that ends in a caught exception has made exactly 3 attempts, each ending in a stale reference or timeout. The last attempt's exception is the one reported |
| Phases.ImagePhaseFrom | dreamina_service.py:231-267 | The first look that harvests any URL wins. Looks that raise or find nothing are repeated up to 3 in all. The last look decides between "no images" and "retrieve failed" |
| Phases.ImagePhaseFailsAfterAllLooks | dreamina_service.py:254-266 | The image phase fails only after all 3 looks were fruitless. It reports "no images" exactly when the third look harvested nothing, and a retrieval failure, carrying that look's exception, exactly when the third look raised |
| Phases.PollForImages | dreamina_service.py:231-267 | The polling loop's result and attempt count equal `ImagePhaseFrom(polls, 0)` |
| Service.DreaminaService.constructor | dreamina_service.py:17-20 | A service is built only from a truthy cookie collection that passed validation. It holds the base URL, those cookies and no driver |
| Service.DreaminaService.Open | dreamina_service.py:17-20 | Construction fails exactly when loading the cookies fails, with the same error. Otherwise the new service holds the loaded cookies and no driver |
| Service.DreaminaService.InitDriver | dreamina_service.py:49-51 | An existing driver is returned and kept unchanged. Otherwise the launched driver is stored and returned; a failed launch is re-raised with the "Failed to initialize" prefix and no driver is kept |
| Service.DreaminaService.Close | dreamina_service.py:276-282 | After closing there is no driver |
| Service.DreaminaService.CheckAuthentication | dreamina_service.py:141-154 | Returns true exactly when the driver is available, setup raised nothing and the page shows no login prompt. Any exception yields false |
| Service.DreaminaService.GenerateImage | dreamina_service.py:167-273 | The response equals `Generated(...)`: driver or setup failures and escaping exceptions become a generation error, each phase that exhausts its attempts reports its own error, and otherwise the image phase decides. The driver ends as `init_driver` left it |
| Service.MessageQuotesCause | dreamina_service.py:199-272 | Every error message except "no images" quotes the text of the exception behind it |
| Service.ErrorResponseExplains | dreamina_service.py:196-273 | An error response carries the failure the generation ended in, with that failure's message, which quotes the exception behind it |
| Service.SucceededWithImages | dreamina_service.py:233-253 | A generation that succeeds yields a non-empty list of distinct image-host URLs, which is the harvest of one of the 3 looks |
| Service.SuccessResponseWellFormed | dreamina_service.py:244-253 | A success carries a non-empty list of distinct image-host URLs with `count == len(images)`. It echoes prompt, model, aspect ratio and quality, and is the harvest of one of the 3 looks |
| Service.ImageErrorsAfterThreeLooks | dreamina_service.py:254-266 | A generation ending in an image-phase failure comes only after 3 fruitless looks. "No images" means the third look raised nothing and found none |
| Service.PromptErrorAfterThreeAttempts | dreamina_service.py:195-200 | The prompt-input error comes only after exactly 3 attempts, each ending in a stale reference or timeout. The reported exception is the third one's |
| Service.ButtonErrorAfterThreeAttempts | dreamina_service.py:218-223 | The generate-button error comes only after the prompt went in and 3 button attempts all ended in a stale reference or timeout. The reported exception is the third one's |

## Left out

- `app.py` (Flask routes, per-request service creation and teardown) is not part of this model: it is HTTP plumbing.
- Driver discovery in `init_driver` (lines 53-110): file globbing, environment variables and building the Chrome options. Whether launching succeeds is an input.
- `apply_cookies`, page navigation, `WebDriverWait`, CSS/XPath selectors, clicks and keystrokes. These are calls into Selenium. What they raise or return is an input (`Browser.setup`, `PhaseTry`, `ImagePoll`).
- `time.sleep`, `print` logging and `__del__`: timing and output carry no logic here.
- Reading `account.json` from disk: the parsed value is the input. Malformed JSON text (`json.JSONDecodeError`) and other I/O errors are not modelled, and neither are the non-standard JSON numbers `NaN`/`Infinity`.
- JSON numbers are `real`: the loader only asks whether a number is zero.
- Python dictionaries keep insertion order; `Json` objects are maps. Only the order of an object's keys is lost, and the loader's outcome does not depend on it.
- Text.Lower: lowercases ASCII letters only, where Python's `str.lower` applies full Unicode case mapping.
- Exception texts are the `msg` field of `Exc` (what `str(e)` prints); Selenium's own formatting of messages is not modelled.
- `BaseException` subclasses that `except Exception` does not catch (such as `KeyboardInterrupt`) are not modelled.
- `driver.quit()` in `close` is a foreign call; its errors are swallowed by the source, so only the reset of `driver` is modelled.
