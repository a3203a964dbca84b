/** network_client.cpp: the posting functions, their replies and the reconnect timer, as written. */
module NetworkClient {
  import opened Backoff
  import opened Options
  import opened RetryMachine

  class NetworkClient {
    const maxRetries: int
    const initialDelay: Millis
    const maxDelay: Millis

    var currentRetry: nat
    var lastUrl: string
    var lastData: string
    var lastFilePathName: string
    var isFileTransfer: bool
    var reconnectTimer: Option<Option<int>> // while active, the delay it was started with

    ghost var inFlight: nat
    ghost var reissues: seq<Post>
    ghost var delays: seq<Option<int>>

    ghost function Settings(): Config { Config(maxRetries, initialDelay, maxDelay) }

    ghost function Snapshot(): Client
      reads this
    {
      Client(currentRetry, Replay(lastUrl, lastData, lastFilePathName, isFileTransfer),
             reconnectTimer.Some?, inFlight, reissues, delays)
    }

    constructor (maxRetries: int, initialDelay: Millis, maxDelay: Millis)
      ensures Snapshot() == IDLE && Settings() == Config(maxRetries, initialDelay, maxDelay)
    {
      this.maxRetries, this.initialDelay, this.maxDelay := maxRetries, initialDelay, maxDelay;
      currentRetry, lastUrl, lastData, lastFilePathName, isFileTransfer := 0, "", "", "", false;
      reconnectTimer, inFlight, reissues, delays := None, 0, [], [];
    }

    method PostJson(url: string, obj: string)
      modifies this
      ensures Snapshot() == Step(AsWritten, Settings(), old(Snapshot()), UserPost(Json(url, obj), true))
      ensures inFlight == old(inFlight) + 1 && currentRetry == 0
      ensures reconnectTimer == old(reconnectTimer)
    {
      lastUrl := url;
      lastData := obj;
      lastFilePathName := "";
      isFileTransfer := false;
      currentRetry := 0;
      inFlight := inFlight + 1;
    }

    // `opens`: the file can be opened for reading.
    method PostFile(url: string, filePath: string, opens: bool)
      modifies this
      ensures Snapshot() == Step(AsWritten, Settings(), old(Snapshot()), UserPost(File(url, filePath), opens))
      ensures inFlight == old(inFlight) + (if opens then 1 else 0) && currentRetry == 0
      ensures reconnectTimer == old(reconnectTimer)
    {
      lastUrl := url;
      lastFilePathName := filePath;
      isFileTransfer := true;
      currentRetry := 0;
      if !opens { return; }
      inFlight := inFlight + 1;
    }

    // In 64 bits; None where a result leaves its range.
    method CalculateBackoff(attempt: nat) returns (delay: Option<int>)
      requires attempt >= 1
      ensures delay == ComputedDelay(initialDelay, maxDelay, attempt)
      ensures delay == if Fits(initialDelay, attempt) then Some(Delay(initialDelay, maxDelay, attempt)) else None
    {
      ComputedIff(initialDelay, maxDelay, attempt);
      var power := ToInt64(Pow2(attempt - 1));
      if power == None { return None; }
      delay := ToInt64(initialDelay * power.value);
      if delay.Some? && maxDelay < delay.value {
        delay := Some(maxDelay);
      }
    }

    method OnRequestFinished(ok: bool)
      requires inFlight > 0
      modifies this
      ensures Snapshot() == Step(AsWritten, Settings(), old(Snapshot()), if ok then Succeeds else Fails)
      ensures old(currentRetry) < maxRetries && !ok ==> reconnectTimer == Some(ComputedDelay(initialDelay, maxDelay, old(currentRetry) + 1))
      ensures ok ==> reconnectTimer == old(reconnectTimer) && currentRetry == 0
    {
      inFlight := inFlight - 1;
      if !ok {
        if currentRetry < maxRetries {
          currentRetry := currentRetry + 1;
          var delay := CalculateBackoff(currentRetry);
          reconnectTimer := Some(delay);
          delays := delays + [delay];
        }
      } else {
        currentRetry := 0;
      }
    }

    // The single-shot timer's timeout. The reissue goes through the public functions, which zero
    // the counter.
    method AttemptReconnect(opens: bool)
      requires reconnectTimer.Some?
      modifies this
      ensures Snapshot() == Step(AsWritten, Settings(), old(Snapshot()), TimerFires(opens))
    {
      reconnectTimer := None;
      if isFileTransfer && lastFilePathName != "" {
        reissues := reissues + [File(lastUrl, lastFilePathName)];
        PostFile(lastUrl, lastFilePathName, opens);
      } else {
        reissues := reissues + [Json(lastUrl, lastData)];
        PostJson(lastUrl, lastData);
      }
    }
  }
}
