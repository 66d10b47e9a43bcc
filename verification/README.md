# Verification of the MinHttp web server

A Dafny model of the server's worker pool, its HTTP framing, its conversation
with CGI programs, the carousel script of its start page and the trailing-space
skippers it vendors, with proofs of what each is for.
`dafny verify dfyconfig.toml` checks the whole project.

| file | what it models |
|---|---|
| `ThreadPool.dfy` | workers and accept loop around one FIFO, mutex and condition variable, as a transition system over all program points; the pool object whose atomic actions perform it |
| `Basics.dfy` | `Option`, `Min` and `Max`, which several models share |
| `Text.dfy` | the C and C++ string operations used: `find`, stream extraction, `to_string`, `atoi` |
| `Lines.dfy` | the line reader over a descriptor |
| `Requests.dfy` | what the server makes of the bytes of a request, and which bytes it accepts |
| `Responses.dfy` | routing, status, head lines, the bytes that go out, and reading them back |
| `EndPoint.dfy` | the object serving one connection, proved to compute the two above |
| `CgiPipes.dfy` | parent and child over two bounded pipes, as a transition system |
| `CgiProgram.dfy` | the CGI program's query string; GET against POST |
| `Service.dfy` | a request that runs a program, from wire to wire through both pipes |
| `Answers.dfy` | a request for a file of the web root, from the bytes that arrive to the bytes that go out |
| `Ring.dfy` | the carousel's index arithmetic: clones, `normalize`, `relative`, `to` |
| `Carousel.dfy` | the carousel object with its inputs, workers and invalidated parts |
| `Pages.dfy` | the pages of the navigation dots |
| `ByteOrder.dfy`, `TrailingSpace.dfy` | byte-wise loads and stores; three ways to skip trailing spaces |

A transition system is a state, an `Enabled` predicate and a `Step` function; a
run is any sequence of enabled events, so a statement about all runs covers
every schedule. A `char` of the source is one Dafny `char`, pixels are reals.

## What the proofs found

- The loop that sends a CGI body stores the comparison `send(...) > 0` instead
  of the count, so it advances by one byte whatever was sent. For any results,
  failures included, the body goes out unchanged exactly when the calls take as
  many bytes as it has and what each sends belongs where it arrives
  (`Responses.CgiBodySentIff`); results that send every body of their length
  unchanged are those where each call takes one byte and the last that succeeds
  takes all the rest (`Responses.EveryBodySentIff`). Before the calls, only a
  body of at most one byte is safe (`Responses.SafeBodyIff`;
  `Responses.CgiBodySentTwice` is an instance), and a client that honours
  Content-Length is safe exactly for bodies that repeat one byte behind their
  first (`Responses.CountingClientIff`, `Responses.CgiRoundTripIff`).
- The announced length of a static file longer than an `int` is wrong, a file
  longer than one `sendfile` call can take arrives cut, and a readable directory
  in the place of a file is announced with its size and sends nothing
  (`Responses.LengthAgreement`, `Responses.StaticBodyCanArriveIff`,
  `Responses.FileRoundTripIff`; instances in `Responses.FileBeyondInt`,
  `Responses.FileBeyondSendfile`, `Responses.DirectoryAnnounced`).
- Merge values below 1 can leave carousel positions without a page, though not
  on every carousel (`Pages.FractionLeavesGap`, `Pages.FractionsMayCover`). For
  given merge values, page size and maximum, `Pages.CoveredIffFull` says exactly
  when; values of at least 1 never do.
- A GET query survives exactly when it has neither white space nor NUL, a POST
  query exactly when its length fits an `int`
  (`CgiProgram.GetReachesIff`, `CgiProgram.PostReachesIff`; instances in
  `CgiProgram.BlankCutsGet`, `CgiProgram.LongPostStops`).
- A looping carousel with `rewind` that shows all its items slides backwards on
  the second click when it pages by all of them (`Ring.PagingJumps`).
  `Ring.NoVisibleJump` says exactly which moves are smooth.
- Replacing the items leaves the old merge values in front, so that the new
  items have their own exactly if these repeat the old ones
  (`Carousel.OwnMergersIff`), and for all new items only if there were none
  before (`Carousel.FreshMergersIff`).

## Model

| member | source | states |
|---|---|---|
| `ThreadPool.EveryRunIsSafe` | MinHttp/ThreadPool.hpp:47-137 | for any number of workers and any schedule, spurious wakeups included: critical sections exclude each other, `PopTask` never meets an empty queue, sockets leave in the order accepted, each accepted socket is pending, queued, in service or closed exactly once, and min(N, work) is at most the workers up plus the signal owed |
| `ThreadPool.StepWork` | MinHttp/ThreadPool.hpp:56-61 | every atomic action keeps work conservation although the signal comes after the unlock |
| `ThreadPool.StepConservation` | MinHttp/ThreadPool.hpp:98-111 | every atomic action keeps accepted = popped, queue and pending in order, and popped = in service plus closed as multisets |
| `ThreadPool.StepMutex` | MinHttp/ThreadPool.hpp:114-130 | every atomic action keeps mutual exclusion and the truth of what the `while` test found |
| `ThreadPool.Drains` | MinHttp/ThreadPool.hpp:52-68 | no schedule is longer than 3N + 14 per arrival + 4 per spurious wakeup; progress is impossible exactly when queue, producer and workers are all idle, and then every accepted socket has been served in order and closed once |
| `ThreadPool.NextMove` | MinHttp/ThreadPool.hpp:47-69 | a reachable state that is not drained has an enabled event other than an arrival or a spurious wakeup |
| `ThreadPool.CanServe` | MinHttp/ThreadPool.hpp:47-104 | whatever sockets arrive, a pool with a worker has a schedule that accepts them all, serves them in order, closes each once and comes to rest |
| `ThreadPool.NothingElseWaits` | MinHttp/ThreadPool.hpp:113-137 | only sleep and a taken mutex hold anybody up: any socket may arrive, any sleeper wake by itself or be the one that is woken |
| `ThreadPool.ThreadPool.PopTask` | MinHttp/ThreadPool.hpp:107-111 | takes the front and leaves the rest |
| `ThreadPool.ThreadPool.ThreadWakeup` | MinHttp/ThreadPool.hpp:133-137 | wakes one sleeper if there is one, else nothing happens |
| `ThreadPool.ThreadPool.ThreadRoutine` | MinHttp/ThreadPool.hpp:47-69 | each atomic action of a worker is that worker's step of the transition system |
| `ThreadPool.ThreadPool.PushTask` | MinHttp/ThreadPool.hpp:98-104 | each atomic action of the producer is its step of the transition system |
| `ThreadPool.ThreadPool.Execute` | MinHttp/HttpServer.hpp:52-66 | performing any schedule on the object keeps the invariant and reaches the schedule's end state |
| `Lines.ReadInLine` | MinHttp/Util.hpp:18-67 | appends exactly the first line, leaves exactly the bytes behind it, and returns the length, or 0 or -1 when no line end comes |
| `Lines.LineRefinesNorm` | MinHttp/Util.hpp:23-65 | a line is the text up to the first LF of the normalised stream, what is left normalises to what follows, and a line is complete iff the normalised stream has an LF |
| `Lines.ReaderSplitsNorm` | MinHttp/Util.hpp:23-65 | whatever mixture of LF, CRLF and CR is used, the lines read are those of the plain split of the normalised text |
| `Lines.ReadBackLine` | MinHttp/Util.hpp:30-51 | text with any of the three line ends reads back as the text, and what follows is left untouched iff it is not an LF behind a lone CR, in which case that LF is lost |
| `Lines.LineOnTheWire` | MinHttp/Util.hpp:30-51 | conversely every complete line comes from such a text and line end |
| `Requests.AcceptedIffFramed` | MinHttp/Protocol.hpp:133-144 | a stream is accepted iff it is a request line, a head block closed by a blank line, and at least the announced body |
| `Requests.FrameReadBack` | MinHttp/Protocol.hpp:501-618 | a framed request is read back exactly: its method, address and version, its heads in order, and precisely the announced bytes as body |
| `Requests.BodyTaken` | MinHttp/Protocol.hpp:574-618 | a POST gets as many bytes for its body as its first Content-Length says, or is refused; any other method gets none, even if a length is given |
| `Requests.FirstValueWins` | MinHttp/Protocol.hpp:558-567 | a key is present iff some head gives it, with the value of the first head that does |
| `EndPoints.EndPoint.RecvHttpRequest` | MinHttp/Protocol.hpp:133-144 | the reading and parsing loops together compute the reception function of the stream, and consume exactly its bytes |
| `EndPoints.EndPoint.GetRequestHead` | MinHttp/Protocol.hpp:517-541 | the loop collects the head lines up to the blank one, or sets `stop` if the stream ends first |
| `EndPoints.EndPoint.RecvHttpRequestBody` | MinHttp/Protocol.hpp:589-618 | the counted loop takes exactly the announced bytes; a count that is negative or too large reads to the end and stops |
| `EndPoints.EndPoint.ParseHttpRequestHead` | MinHttp/Protocol.hpp:558-567 | the loop of insertions gives the first-value map |
| `EndPoints.EndPoint.BuildHttpResponse` | MinHttp/Protocol.hpp:350-466 | the routing on the object computes the response function of request, files and CGI outcome |
| `EndPoints.EndPoint.SendHttpResponse` | MinHttp/Protocol.hpp:469-495 | emits what the sends of status line, heads and blank line take, and then the body bytes of the CGI loop or what `sendfile` takes, for any results of these calls |
| `Responses.HeadSentIff` | MinHttp/Protocol.hpp:473-478 | the head arrives whole iff every one of its sends takes all it is offered |
| `EndPoints.EndPoint.SendBody` | MinHttp/Protocol.hpp:485-488 | the loop that advances by the comparison emits the stated bytes for any results of its sends |
| `EndPoints.HandlerRequest` | MinHttp/Protocol.hpp:721-742 | from the bytes of a connection to its end: nothing is sent unless the request is complete, otherwise exactly the answer to it, and the connection is closed |
| `Answers.FileServed` | MinHttp/Protocol.hpp:350-495 | from wire to wire: a GET of a readable file, or of a directory with such a default page, is answered byte for byte with "HTTP/1.0 200 OK", its type, its length, a blank line and its content, if the calls take all they can |
| `Answers.FileRead` | MinHttp/Protocol.hpp:469-495 | a client made of the server's own reader gets that status and content back |
| `Answers.NothingServed` | MinHttp/Protocol.hpp:350-495 | from wire to wire: a GET of nothing, or of an unreadable file, is answered byte for byte with "HTTP/1.0 404 Not Found" and the error page, or the status alone if there is none |
| `Answers.ErrorPageSent` | MinHttp/Protocol.hpp:682-701 | any error is answered with the error page as HTML behind its own status line |
| `Answers.Located` | MinHttp/Protocol.hpp:392-406 | a path stands for "./wwwroot" and itself, with "index.html" behind a final slash |
| `Answers.LocatedProgram` | MinHttp/Protocol.hpp:370-391 | with a query the path in front of the question mark counts; a POST keeps its whole address; both run a program |
| `Answers.NamesRuns` | MinHttp/Protocol.hpp:407-425 | a GET without query runs a program iff what it names, a directory's default page included, is executable |
| `Answers.NoDefaultPage` | MinHttp/Protocol.hpp:411-423 | of a directory without a default page the directory's own mode decides whether a program is run |
| `Answers.NulEndsPath` | MinHttp/Protocol.hpp:408 | what stands behind a NUL in a path does not count for the file system |
| `Answers.SuffixOfResource` | MinHttp/Protocol.hpp:433-446 | the type announced with a 200, of a file or a program, goes by the name of the resource |
| `Responses.StatusMeaning` | MinHttp/Protocol.hpp:350-466 | each of 400, 404 and 500 is given iff its cause is there, and a 200 carries the program's output or the named file |
| `Responses.StatusRead` | MinHttp/Protocol.hpp:620-655 | each of the lines "HTTP/1.0 200 OK", "HTTP/1.0 404 Not Found", "HTTP/1.0 400 " and "HTTP/1.0 500 " is read back from what is sent iff its cause is there |
| `Responses.StatusOnTheWire` | MinHttp/Protocol.hpp:628-633 | on every path the first line read back is the text of the status, whatever else is sent |
| `Responses.StatusWords` | MinHttp/Protocol.hpp:628-633 | its first word is the version, and its second reads back as the code |
| `Responses.TypeOfName` | MinHttp/Protocol.hpp:661-664 | css, js, jpg and xml behind the last dot of a name give their types, everything else HTML |
| `Responses.LengthAgreement` | MinHttp/Protocol.hpp:621-701 | on every path the status is one of four, CGI output is offered with 200 only, head lines are missing only with the error page, and the announced length is the size offered iff it is not a static file beyond `int` |
| `Responses.StaticBodySentIff` | MinHttp/Protocol.hpp:492-493 | for any result of `sendfile` and any opened source, as many bytes as announced, and a file's content, arrive iff the call takes the whole content, or the source is a directory announced as empty |
| `Responses.StaticBodyCanArriveIff` | MinHttp/Protocol.hpp:492-493 | before the call: that is possible iff the source is a file that one `sendfile` call can take, or such a directory |
| `Responses.DirectoryAnnounced` | MinHttp/Protocol.hpp:682-699 | an instance: a directory in the place of the error page is announced with its size, and nothing is sent |
| `Responses.CgiBodySentIff` | MinHttp/Protocol.hpp:485-488 | for any results of its sends, failures included, a CGI body goes out unchanged iff they take as many bytes as it has and each piece belongs where it arrives |
| `Responses.EveryBodySentIff` | MinHttp/Protocol.hpp:485-488 | the results that send every body of their length unchanged are those where each call takes one byte and the last that succeeds takes the rest |
| `Responses.SafeBodyIff` | MinHttp/Protocol.hpp:485-488 | before the calls: a body goes out unchanged, or up to a failing call, for all results iff it has at most one byte |
| `Responses.CountingClientIff` | MinHttp/Protocol.hpp:485-488 | before the calls: what goes out starts with the body for all succeeding results iff the body repeats one byte behind its first |
| `Responses.CgiBodySentTwice` | MinHttp/Protocol.hpp:485-488 | an instance where two bytes are sent as three |
| `Responses.CgiRoundTrip` | MinHttp/Protocol.hpp:469-490 | the bytes of a CGI response, for any results of the body sends, read back with the server's own line reader, head splitter and counted reader, give its content type and length, and its body iff the length fits an `int` and the bytes sent start with it |
| `Responses.CgiRoundTripAtOnce` | MinHttp/Protocol.hpp:469-490 | a first `send` that takes everything is enough, whatever the next ones return |
| `Responses.CgiRoundTripIff` | MinHttp/Protocol.hpp:469-490 | before the calls: the body reads back for all succeeding results iff it fits an `int` and repeats one byte behind its first |
| `Responses.FileOnTheWire` | MinHttp/Protocol.hpp:469-494 | for every status, a static body goes out byte for byte behind its head, a file with its type and an error page as HTML, iff `sendfile` takes all of it, when the sends of the head do |
| `Responses.FileRoundTrip` | MinHttp/Protocol.hpp:469-494 | what is sent of a static body reads back with its status, type, length and content iff the `sendfile` call takes the whole content, for any result of it |
| `Responses.ErrorWithoutPage` | MinHttp/Protocol.hpp:682-701 | without an error page only the status line and a blank line go out |
| `Responses.FileRoundTripIff` | MinHttp/Protocol.hpp:469-494 | when the call takes all that it can: iff one `sendfile` call can take the file |
| `Responses.FileBeyondInt` | MinHttp/Protocol.hpp:424 | an instance: a file of 2^31 bytes is announced as -2^31 bytes long |
| `Responses.FileBeyondSendfile` | MinHttp/Protocol.hpp:492-493 | an instance: a file one byte longer than one `sendfile` call takes loses its last byte |
| `Responses.ReplyRoundTrip` | MinHttp/Protocol.hpp:661-679 | the same for any bytes behind the head: the body comes back iff they start with it and its length fits |
| `Text.AtoiOfDecimal` | MinHttp/Protocol.hpp:581 | printing a length and reading it back is the identity iff it fits an `int` |
| `Text.AtoiReads` | MinHttp/Protocol.hpp:581 | white space in front, a sign and anything behind the digits do not disturb the reading of a number |
| `Text.AtoiOfToString` | MinHttp/Protocol.hpp:321 | a number printed into the environment reads back as itself |
| `Text.AnyCase` | MinHttp/Protocol.hpp:549 | a method is known in any mixture of cases and by no other name |
| `Text.SpaceCodes` | MinHttp/Protocol.hpp:548 | words end at blank, tab, LF, VT, FF and CR |
| `CgiPipes.NoDeadlock` | MinHttp/Protocol.hpp:241-267 | for any capacity of at least 1, any body and any splitting of writes, some side can move until the parent is done, within 2(body + output) + 6 moves, and in both directions read + in the pipe + unwritten is the whole at every moment |
| `CgiPipes.DataFidelity` | MinHttp/Protocol.hpp:255-294 | at the end the code tells how the child ended; a child that ran through has exactly the body and the parent exactly its output, one that left early or was killed has read and written the start of them, and a failed exec gives an empty response and 400 |
| `CgiPipes.CanFinish` | MinHttp/Protocol.hpp:241-294 | for any body and program there is a schedule that ends with a child that ran through |
| `CgiPipes.NothingElseWaits` | MinHttp/Protocol.hpp:255-267 | only an empty or a full pipe holds a side up: writes may be split in any way, a child may fail to start, leave or be killed at any time |
| `CgiPipes.StepOutput` | MinHttp/Protocol.hpp:263-267 | every move keeps output = response + pipe + unwritten rest |
| `CgiPipes.StepBody` | MinHttp/cgi/comm.hpp:16-26 | every move keeps body = child's string + pipe + unwritten rest |
| `CgiProgram.GetQueryString` | MinHttp/cgi/comm.hpp:8-31 | GET takes the variable; POST takes exactly CONTENT_LENGTH bytes, repeating the last one if the input ends early; a negative count goes round through the least `int` |
| `CgiProgram.CountedInput` | MinHttp/cgi/comm.hpp:16-26 | the input read is the bytes there, then the last of them again and again up to the count |
| `CgiProgram.ContentLengthIsBody` | MinHttp/Protocol.hpp:318-324 | for an accepted POST, CONTENT_LENGTH in the child reads back as the length of the body that the server writes to it |
| `CgiProgram.SplitQuery` | MinHttp/cgi/cgi.cc:10-20 | the three nested cuts compute the splitting function |
| `CgiProgram.SplitOfJoin` | MinHttp/cgi/cgi.cc:10-20 | n1=v1&n2=v2 splits back into its parts iff no name has an `=` and the first pair has no `&` |
| `CgiProgram.SplitMeaning` | MinHttp/cgi/cgi.cc:10-20 | the first `&` parts any query, in each part the first `=` the name from the value, and names and values stay empty where there is none |
| `CgiProgram.GetReachesIff` | MinHttp/Protocol.hpp:370-380 | the bytes of GET path?q, for any q, line ends included, are accepted and, through every finished conversation over the pipes, the program gets query q iff q has neither white space nor NUL |
| `CgiProgram.BlankCutsGet` | MinHttp/Protocol.hpp:543-549 | an instance: GET with the query "a b" is accepted and delivers "a" |
| `CgiProgram.PostReachesIff` | MinHttp/Protocol.hpp:319-324 | the bytes of POST path with any body q are accepted and, through every finished conversation over the pipes, the program gets query q iff the length of q fits an `int` |
| `CgiProgram.LongPostStops` | MinHttp/Protocol.hpp:581 | an instance: a POST with a body of 2^31 bytes, announced right, is not accepted |
| `CgiProgram.TransportIndependence` | MinHttp/Protocol.hpp:309-324 | both requests reach the same program with the same query q iff q has neither white space nor NUL and its length fits an `int` |
| `Service.ProgramAnswers` | MinHttp/Protocol.hpp:255-294 | for any conversation that is over, with a child that ran through, left early, was killed or never started, and for any results of the sends: the outcome fits the program's run on its query; status 0 is answered 200 with the output read, which a client that honours the length reads back, if the head goes out whole, iff it fits an `int` and starts what is sent; anything else gives 400 or 500 and none of the output is sent |
| `Service.QueryAnswered` | MinHttp/Protocol.hpp:721-742 | the same from wire to wire, for a query that reaches a program: the outcome fits the program's run on exactly that query, and the answer is as above |
| `Service.QueryAnsweredAtOnce` | MinHttp/Protocol.hpp:721-742 | so a client reads a successful program's output for its query when the head goes out whole, the first `send` takes the whole output and that fits an `int` |
| `Ring.StageIsRing` | MinHttp/wwwroot/assets/js/owl-carousel.js:325-353 | for every number of items and clones, the stage shows item `relative(p)` at every position p |
| `Ring.RelativeIsMod` | MinHttp/wwwroot/assets/js/owl-carousel.js:1051-1073 | `relative` is the non-negative remainder of the distance from item 0, although JavaScript's `%` is signed |
| `Ring.ModIsRemainder` | MinHttp/wwwroot/assets/js/owl-carousel.js:1051-1062 | the places on the ring, counted by going round, are the remainders of Euclidean division |
| `Ring.NormalizeSound` | MinHttp/wwwroot/assets/js/owl-carousel.js:1051-1062 | a normalised position is on the stage and shows the same item; one on the stage stays as it is |
| `Ring.CloneLookup` | MinHttp/wwwroot/assets/js/owl-carousel.js:1162-1172 | `clones(i)` lists exactly the positions outside the real items that show i, each once |
| `Ring.ShortestWay` | MinHttp/wwwroot/assets/js/owl-carousel.js:1245-1257 | the adjusted distance is the plain one up to whole rounds, and at most half a round iff the target is at most one and a half rounds away, or with `rewind` half a round |
| `Ring.StepsTravelled` | MinHttp/wwwroot/assets/js/owl-carousel.js:1254-1266 | `to` travels straight to the target up to exactly half a round away, both ways, and with `rewind` always; beyond that one whole round less |
| `Ring.NextPageForwards` | MinHttp/wwwroot/assets/js/owl-carousel.js:1254-1266 | an instance: the next page of four items that show two is reached forwards |
| `Ring.RepeatsLeast` | MinHttp/wwwroot/assets/js/owl-carousel.js:333-336 | the clones on either side are the least number that is 2, a whole view and, unless `rewind`, half a round |
| `Ring.ToReachesTarget` | MinHttp/wwwroot/assets/js/owl-carousel.js:1254-1266 | for every integer target, `to` ends on the item target mod n, and a preceding jump does not change the item shown |
| `Ring.NoVisibleJump` | MinHttp/wwwroot/assets/js/owl-carousel.js:1254-1266 | with and without `rewind`, every move starts from a place that looks like the current one, travels exactly the wanted distance and ends on the item meant; both its ends are on the stage, so that nothing jumps, iff the move is smooth, and it then ends at home iff the target is in reach, two conditions on current position and distance; the stage jumps first iff that ends on a real item instead of a clone |
| `Ring.NearIsInReach` | MinHttp/wwwroot/assets/js/owl-carousel.js:1245-1266 | with the clones of an update, from home, targets are in reach up to one and a half rounds away, and then at most half a round is travelled; with `rewind` all items are, and what is up to half a round and r steps away |
| `Ring.PagingJumps` | MinHttp/wwwroot/assets/js/owl-carousel.js:3195-3197 | with `rewind` and all of two or more items shown, paging by all of them is smooth once and slides backwards the second time |
| `Ring.TourStaysHome` | MinHttp/wwwroot/assets/js/owl-carousel.js:1287-1300 | a sequence of moves to targets in reach never leaves the stage and ends at home, on the item asked for last |
| `Ring.NearTour` | MinHttp/wwwroot/assets/js/owl-carousel.js:1287-1300 | with the clones of an update, every sequence of moves to near targets from home is such a sequence |
| `Carousel.Owl.Update` | MinHttp/wwwroot/assets/js/owl-carousel.js:628-644 | running only the triggered workers leaves everything as running all from scratch; no part stays invalidated, the state is valid; a looping carousel shows the same item and stands where moves are smooth, and one that does not loop stands on the same item if it is in range, else at the end of the range |
| `Carousel.Owl.RunWorker` | MinHttp/wwwroot/assets/js/owl-carousel.js:269-446 | what each worker writes and leaves alone, by the functions `Written` and `Remembered`; its preconditions make every cache entry it reads written in the same update |
| `Carousel.Owl.StyleItems` | MinHttp/wwwroot/assets/js/owl-carousel.js:383-403 | the loop over the stage gives every item element its own width if some item is merged, else all the grid width |
| `Carousel.WorkerWrites` | MinHttp/wwwroot/assets/js/owl-carousel.js:269-446 | whatever parts are invalid, each worker in turn, run or skipped, brings what is derived one worker nearer to running all from scratch |
| `Carousel.Owl.MakeClones` | MinHttp/wwwroot/assets/js/owl-carousel.js:325-353 | the clone loop builds the clone list and both clone blocks |
| `Carousel.Owl.ComputeCoordinates` | MinHttp/wwwroot/assets/js/owl-carousel.js:354-371 | the loop gives the coordinate of every stage position |
| `Carousel.Owl.ComputeWidths` | MinHttp/wwwroot/assets/js/owl-carousel.js:300-324 | the downward loop gives the width of every item and whether some item is merged |
| `Carousel.Owl.Invalidate` | MinHttp/wwwroot/assets/js/owl-carousel.js:1014-1020 | adds the part and leaves the valid state |
| `Carousel.Owl.Setup` | MinHttp/wwwroot/assets/js/owl-carousel.js:587-591 | new settings keep what skipped workers rely on |
| `Carousel.Owl.Refresh` | MinHttp/wwwroot/assets/js/owl-carousel.js:667-683 | after any change of settings everything is as from scratch; a carousel that then loops shows the item it showed and stands where moves are smooth, and one that does not that item or the last in range |
| `Carousel.Owl.OnResize` | MinHttp/wwwroot/assets/js/owl-carousel.js:718-720 | the same after a change of the element's width |
| `Carousel.Owl.Add` | MinHttp/wwwroot/assets/js/owl-carousel.js:1380-1406 | inserts at the normalised position, keeps the index of the current item, and keeps what skipped workers rely on |
| `Carousel.Owl.Remove` | MinHttp/wwwroot/assets/js/owl-carousel.js:1414-1430 | removes the item at the normalised position and keeps what skipped workers rely on |
| `Carousel.Owl.Replace` | MinHttp/wwwroot/assets/js/owl-carousel.js:1347-1371 | the new items are the content; merge values of old items stay in front |
| `Carousel.OwnMergersIff` | MinHttp/wwwroot/assets/js/owl-carousel.js:1347-1366 | after replacing the items each has its own merge value iff the new values repeat the old ones |
| `Carousel.FreshMergersIff` | MinHttp/wwwroot/assets/js/owl-carousel.js:1347-1366 | for all new items iff there were no merge values before |
| `Carousel.Owl.To` | MinHttp/wwwroot/assets/js/owl-carousel.js:1245-1280 | looping: any target ends on item target mod n, the animation starts behind the jump if there is one, and targets in reach, among them near ones from home, lead home again; else the target is wrapped or clamped into the range; the view is up to date if visible |
| `Carousel.Owl.Maximum` | MinHttp/wwwroot/assets/js/owl-carousel.js:1081-1114 | the loop over the widths of the item elements computes the maximum |
| `Carousel.StageReadsAsRing` | MinHttp/wwwroot/assets/js/owl-carousel.js:325-353 | after an update the stage has one coordinate per child and shows item `relative(p)` at every position, for all settings |
| `Carousel.CoordinatesMeasureStage` | MinHttp/wwwroot/assets/js/owl-carousel.js:364-368 | neighbouring coordinates differ by the width of the item shown there and one margin |
| `Carousel.GridFillsView` | MinHttp/wwwroot/assets/js/owl-carousel.js:303 | the grid items to be shown fill the view up to rounding |
| `Carousel.WidthsMeaning` | MinHttp/wwwroot/assets/js/owl-carousel.js:300-324 | in a grid an item is as wide as its merge value of columns, made to fit or not, else as its own width, and its element as one column if nothing is merged |
| `Carousel.MergeMeaning` | MinHttp/wwwroot/assets/js/owl-carousel.js:315-316 | a merge value made to fit is at most itself and the columns shown, and one of the two |
| `Carousel.Fixed3Digits` | MinHttp/wwwroot/assets/js/owl-carousel.js:303 | a column width is rounded to whole thousandths |
| `Carousel.MaximumShowsLast` | MinHttp/wwwroot/assets/js/owl-carousel.js:1105-1107 | the maximum is the first position whose view reaches the last item |
| `Carousel.MaximumCentred` | MinHttp/wwwroot/assets/js/owl-carousel.js:1103-1104 | with centring every item is in range |
| `Carousel.MaximumFits` | MinHttp/wwwroot/assets/js/owl-carousel.js:1090-1102 | what lies behind the maximum fits into the element and one item more would not |
| `Carousel.MaximumInRange` | MinHttp/wwwroot/assets/js/owl-carousel.js:1081-1114 | the relative maximum is the index of an item |
| `Pages.Update` | MinHttp/wwwroot/assets/js/owl-carousel.js:3096-3112 | the loop computes the page list |
| `Pages.StartsIncrease` | MinHttp/wwwroot/assets/js/owl-carousel.js:3099-3109 | page starts strictly increase and stay within the maximum, for any merge values |
| `Pages.CoveredIffFull` | MinHttp/wwwroot/assets/js/owl-carousel.js:3096-3112 | for any positive merge values, page size and maximum, every position up to the maximum is on a page iff, page by page, the items that a page spans fill it, up to one that reaches the maximum or ends right before it |
| `Pages.PagesCover` | MinHttp/wwwroot/assets/js/owl-carousel.js:3099-3111 | with merge values of at least 1 every position up to the maximum is on a page |
| `Pages.CoverIffWholeMerges` | MinHttp/wwwroot/assets/js/owl-carousel.js:3099-3111 | a lower bound on merge values guarantees cover for all carousels and page sizes iff it is at least 1 |
| `Pages.FractionLeavesGap` | MinHttp/wwwroot/assets/js/owl-carousel.js:3100-3110 | every merge value below 1 leaves a gap on a concrete carousel |
| `Pages.FractionsMayCover` | MinHttp/wwwroot/assets/js/owl-carousel.js:3100-3110 | an instance of fractional merge values that leave none |
| `Pages.CurrentPageDefined` | MinHttp/wwwroot/assets/js/owl-carousel.js:3173-3178 | the current page is defined iff some page holds the position |
| `Pages.CurrentPageIsLast` | MinHttp/wwwroot/assets/js/owl-carousel.js:3173-3178 | of the pages that hold the position, which may overlap, the last is the current one |
| `Pages.LastPageAtMaximum` | MinHttp/wwwroot/assets/js/owl-carousel.js:3173-3178 | at the maximum the last page is the current one, if any page holds it |
| `Pages.SecondPageAtMaximum` | MinHttp/wwwroot/assets/js/owl-carousel.js:3096-3112 | an instance: five items on pages of three, where the second page is the current one at the maximum |
| `Pages.NavigationCurrentDefined` | MinHttp/wwwroot/assets/js/owl-carousel.js:3083-3113 | for all settings and positive merge values the navigation has a current page at every position up to the maximum, on a looping carousel at every item, iff no page is short; never short with values of at least 1 |
| `TrailingSpace.SkipWords` | MinHttp/cgi/include/m_string.h:280-310 | the aligned-word version finds the end of the byte loop for every buffer, length, address and word size, reading only aligned words and only inside the string |
| `TrailingSpace.SkipAlignedZone` | MinHttp/cgi/include/m_string.h:304-305 | the word loop moves over spaces only and stays in the aligned zone |
| `TrailingSpace.SkipEight` | MinHttp/cgi/include/m_string.h:317-329 | the 8-byte version finds the same end, reading only inside the string |
| `TrailingSpace.SkipBytes` | MinHttp/cgi/include/m_string.h:326-327 | the byte loop finds it |
| `TrailingSpace.TrimmedEndIffTrimmedLength` | MinHttp/cgi/include/m_string.h:326-328 | the end found is the one place with only spaces behind it and no space before it |
| `TrailingSpace.EightSpaces` | MinHttp/cgi/include/m_string.h:322 | a loaded value equals the space word iff all eight bytes are spaces |
| `ByteOrder.Int8Store` | MinHttp/cgi/include/byte_order_generic.h:91-97 | writes the eight bytes in place and nothing else |
| `ByteOrder.LoadAfterStore` | MinHttp/cgi/include/byte_order_generic.h:56-97 | loading what was stored gives the value back |
| `ByteOrder.StoreAfterLoad` | MinHttp/cgi/include/byte_order_generic.h:56-97 | storing what was loaded gives the bytes back, so loads are injective |

## Left out

- Operating system: sockets, `accept`, `fork`, `exec`, `stat` and logging are parameters. Received data is a byte sequence followed by an end or an error, the file system a map from paths to entries, a pipe a bounded byte queue.
- `GetRequestLine` has no return statement in the source; it is modelled as returning `stop`, as its sibling for the heads does.
- EndPoints.EndPoint.ProcessCgi: takes the outcome of the conversation as a parameter; the conversation itself is `CgiPipes`. A pipe or fork failure is such an outcome.
- Text.Atoi: outside `int` the C standard leaves the result open; the model has glibc's saturation and truncation.
- CgiProgram.GetQueryString: the countdown of a negative CONTENT_LENGTH goes round like two's complement; C++ leaves the overflow undefined. The server never passes one for an accepted request.
- CgiProgram.TransportIndependence: the path is nonempty and has neither white space nor `?`, as a request line needs it; both requests end their lines with CRLF and carry no other heads.
- CgiPipes.NoDeadlock: children that write before they have read all, children that run on without reading, and descriptors inherited by concurrent forks are not modelled. Writes up to the kernel's atomic size may also be split in the model.
- ThreadPool.Drains: serving a task is one action that ends; the pool starts with all its threads created, and `GetInstance` and destruction are not modelled.
- The HTML page and the arithmetic that `cgi.cc` prints.
- Pages.Update: the page size, which comes from the settings, and whether pages are wanted at all are parameters.
- Pages.CoveredIffFull: merge values are positive; for negative ones, which `data-merge` could give, only `Pages.StartsIncrease` is proved.
- Carousel DOM, animation, speed, drag, autoplay and event overrides. The stage is its prepended clones, its items and its appended clones; where exactly a new element is inserted among clones that the next update removes is not modelled.
- Carousel.Owl.RunWorker: workers 7, 9, 11 and 12 only style the stage or mark elements, which nothing here reads; of the styles that workers 3 and 8 set, the widths of the item elements are kept, those of the clones and the margins are not.
- The carousel's current position before any item exists is 0 instead of null, and a fractional `settings.items` is not modelled.
- Structures of the remaining MySQL headers, x86 byte-order casts, `counter.js` and `custom.js`: declarations and user interface only.
