/** The handshake as an object that takes its bytes out of a buffer. */
module Socks5States {
  import opened Blocks
  import opened Protocol
  import opened Buffers
  import S = Socks5

  class Socks5State {
    const env: S.Env
    var state: S.State
    var required: nat
    /** The callbacks called so far. */
    var log: seq<S.Call>

    ghost function View(): (p: S.Parser)
      reads this
    {
      S.Parser(state, required, log)
    }

    constructor (env: S.Env)
      ensures this.env == env && View() == S.START
    {
      this.env, state, required, log := env, S.GreetingHeader, 2, [];
    }

    method Callback(c: S.Call) returns (r: S.Reply)
      modifies this`log
      ensures log == old(log) + [c] && r == env(log)
    {
      log := log + [c];
      r := env(log);
    }

    method Send(m: seq<byte>) returns (status: S.Status)
      modifies this`log
      ensures (View(), status) == S.Send(env, old(View()), m)
    {
      var r := Callback(S.Respond(m));
      status := r.status;
    }

    method CreateResp(remote: bool) returns (m: seq<byte>)
      modifies this`log
      ensures log == old(log) + [S.DestAddress(remote)] && m == S.FinalReply(env(log))
    {
      var r := Callback(S.DestAddress(remote));
      m := if r.status == S.OK then [5, 0, 0] + AddrPort(r.addr) else S.ERROR_REPLY;
    }

    /** The buffer can be read from, and is not being read from by someone else. */
    ghost predicate Ready(buffer: Buffer)
      reads this, buffer, buffer.freelist
    {
      S.WellFormed(View()) && buffer.Valid() && !buffer.peeked && required <= buffer.dataSize
    }

    twostate predicate Took(s: S.Step, buffer: Buffer)
      requires old(buffer.Valid())
      reads this, buffer, buffer.freelist
    {
      && buffer.Valid() && !buffer.peeked && buffer.reserved == old(buffer.reserved)
      && buffer.shadow.grant == old(buffer.shadow.grant)
      && View() == s.p && s.n <= |old(buffer.Contents())| && buffer.Contents() == old(buffer.Contents())[s.n..]
    }

    method OnGreetingHeader(buffer: Buffer) returns (ghost s: S.Step)
      requires Ready(buffer) && state == S.GreetingHeader
      modifies this, buffer, buffer.freelist
      ensures s == S.Proceed(env, old(View()), old(buffer.Contents())) && Took(s, buffer)
    {
      hide Buffer.Valid, Buffer.Contents;
      s := S.Proceed(env, View(), buffer.Contents());
      var greeting, _ := buffer.CopyOut(2, false);
      if greeting[0] != 5 || greeting[1] == 0 {
        state := S.Fail;
      } else {
        required := greeting[1] as nat;
        state := S.GreetingMethods;
      }
    }

    method OnGreetingMethods(buffer: Buffer) returns (ghost s: S.Step)
      requires Ready(buffer) && state == S.GreetingMethods
      modifies this, buffer, buffer.freelist
      ensures s == S.Proceed(env, old(View()), old(buffer.Contents())) && Took(s, buffer)
    {
      hide Buffer.Valid, Buffer.Contents;
      s := S.Proceed(env, View(), buffer.Contents());
      var methods, _ := buffer.CopyOut(required, false);
      if 0 !in methods {
        state := S.Fail;
        return;
      }
      var status := Send(S.GREETING_REPLY);
      if status != S.OK {
        state := S.Fail;
        return;
      }
      state := S.RequestHeader;
      required := 4;
    }

    method OnRequestHeader(buffer: Buffer) returns (ghost s: S.Step)
      requires Ready(buffer) && state == S.RequestHeader
      modifies this, buffer, buffer.freelist
      ensures s == S.Proceed(env, old(View()), old(buffer.Contents())) && Took(s, buffer)
    {
      hide Buffer.Valid, Buffer.Contents;
      s := S.Proceed(env, View(), buffer.Contents());
      var header, _ := buffer.CopyOut(4, false);
      if header[0] != 5 || header[2] != 0 {
        state := S.Fail;
      } else if header[1] == 1 {
        if header[3] == ATYP_V4 {
          state := S.RequestAddrV4;
          required := 6;
        } else if header[3] == ATYP_FQDN {
          state := S.Fail;
        } else if header[3] == ATYP_V6 {
          state := S.RequestAddrV6;
          required := 18;
        } else {
          state := S.Fail;
        }
      } else if header[1] == 2 {
        if header[3] == ATYP_V4 {
          required := 6;
        } else if header[3] == ATYP_FQDN {
          state := S.Fail;
          return;
        } else if header[3] == ATYP_V6 {
          required := 18;
        } else {
          state := S.Fail;
          return;
        }
        state := S.RequestBind;
      } else {
        state := S.Fail;
      }
    }

    method OnRequestAddr(buffer: Buffer) returns (go: bool, ghost s: S.Step)
      requires Ready(buffer) && (state == S.RequestAddrV4 || state == S.RequestAddrV6)
      modifies this, buffer, buffer.freelist
      ensures s == S.Proceed(env, old(View()), old(buffer.Contents())) && Took(s, buffer) && go == s.go
    {
      hide Buffer.Valid, Buffer.Contents;
      ghost var bytes := buffer.Contents();
      s := S.Proceed(env, View(), bytes);
      var v4 := state == S.RequestAddrV4;
      var ip, _ := buffer.CopyOut(if v4 then 4 else 16, false);
      var port, _ := buffer.CopyOut(2, false);
      assert port == bytes[required - 2..required] && buffer.Contents() == bytes[required..];
      required := 0;
      var r := Callback(S.Connect(if v4 then V4(ip, port) else V6(ip, port)));
      go := false;
      match r.status {
        case OK =>
          state := S.Response;
          go := true;
        case InProgress =>
          state := S.WaitConnect;
        case Failed =>
          state := S.Fail;
      }
    }

    method OnRequestBind(buffer: Buffer) returns (ghost s: S.Step)
      requires Ready(buffer) && state == S.RequestBind
      modifies this, buffer, buffer.freelist
      ensures s == S.Proceed(env, old(View()), old(buffer.Contents())) && Took(s, buffer) && !s.go
    {
      hide Buffer.Valid, Buffer.Contents;
      ghost var bytes := buffer.Contents();
      s := S.Proceed(env, View(), bytes);
      var _, _ := buffer.CopyOut(required - 2, true);
      var port, _ := buffer.CopyOut(2, false);
      assert port == bytes[required - 2..required] && buffer.Contents() == bytes[required..];
      required := 0;
      var r := Callback(S.Bind(Ntohs(port)));
      if r.status == S.Failed {
        state := S.Fail;
        return;
      }
      var status := Send([5, 0, 0, 1, 0, 0, 0, 0] + Htons(r.port));
      state := if status == S.Failed then S.Fail else S.WaitAccept;
    }

    method OnResponse()
      requires S.WellFormed(View()) && state == S.Response
      modifies this
      ensures View() == S.OnResponse(env, old(View())).p
    {
      var resp := CreateResp(false);
      var status := Send(resp);
      if status != S.OK {
        state := S.Fail;
        return;
      }
      state := S.Success;
      required := 1;
    }

    /** One transition. */
    method Proceed(buffer: Buffer) returns (go: bool, ghost s: S.Step)
      requires S.WellFormed(View()) && buffer.Valid() && !buffer.peeked
      modifies this, buffer, buffer.freelist
      ensures s == S.Proceed(env, old(View()), old(buffer.Contents())) && Took(s, buffer) && go == s.go
    {
      hide Buffer.Valid, Buffer.Contents;
      s := S.Proceed(env, View(), buffer.Contents());
      assert buffer.Contents()[0..] == buffer.Contents();
      if buffer.dataSize < required {
        return false, s;
      }
      match state {
        case GreetingHeader => s := OnGreetingHeader(buffer);
        case GreetingMethods => s := OnGreetingMethods(buffer);
        case RequestHeader => s := OnRequestHeader(buffer);
        case RequestAddrV4 =>
          go, s := OnRequestAddr(buffer);
          return;
        case RequestAddrV6 =>
          go, s := OnRequestAddr(buffer);
          return;
        case RequestBind => s := OnRequestBind(buffer);
        case WaitConnect => return false, s;
        case WaitAccept => return false, s;
        case Response => OnResponse();
        case Success => return false, s;
        case Fail =>
          required := 0;
          return false, s;
      }
      go := state != S.Fail && state != S.WaitAccept;
    }

    /** Transitions as long as the bytes allow. */
    method Drive(buffer: Buffer)
      requires S.WellFormed(View()) && buffer.Valid() && !buffer.peeked
      modifies this, buffer, buffer.freelist
      ensures S.WellFormed(View()) && buffer.Valid() && !buffer.peeked && buffer.reserved == old(buffer.reserved)
      ensures buffer.shadow.grant == old(buffer.shadow.grant)
      ensures (View(), buffer.Contents()) == S.Run(env, old(View()), old(buffer.Contents()))
    {
      hide Buffer.Valid, Buffer.Contents, S.Proceed, S.WellFormed;
      var go := true;
      while go && state != S.Success
        invariant S.WellFormed(View()) && buffer.Valid() && !buffer.peeked && buffer.reserved == old(buffer.reserved)
        invariant buffer.shadow.grant == old(buffer.shadow.grant)
        invariant if go then S.Run(env, View(), buffer.Contents()) == S.Run(env, old(View()), old(buffer.Contents()))
                  else (View(), buffer.Contents()) == S.Run(env, old(View()), old(buffer.Contents()))
        decreases if go then 1 + S.Rank(state) else 0
      {
        ghost var s;
        go, s := Proceed(buffer);
      }
    }

    /** The connection to the destination is established. */
    method ConnectionSucceed() returns (ok: bool)
      requires S.WellFormed(View())
      modifies this
      ensures (View(), ok) == S.ConnectionSucceed(env, old(View()))
    {
      if state != S.WaitConnect && state != S.WaitAccept {
        state := S.Fail;
        return false;
      }
      var resp := CreateResp(state == S.WaitAccept);
      var status := Send(resp);
      if status != S.OK {
        state := S.Fail;
      }
      state := S.Success;
      return state == S.Success;
    }
  }
}
