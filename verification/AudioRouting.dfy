/** Routing and configuration of the audio streams. All of it happens under the hardware
    lock, so one operation at a time. */
module AudioRouting {

  const AUDIO_HW_OUT_SAMPLERATE: nat := 44100
  const AUDIO_HW_IN_SAMPLERATE: nat := 11025
  const BT_SAMPLERATE: nat := 8000

  datatype StreamState = Idle | ConfigReq | NewRateReq | Configured

  /** The three kinds of output devices, and the two kinds of input devices. */
  datatype Routes = Routes(speaker: bool, bluetooth: bool, spdif: bool)
  datatype Mics = Mics(mic: bool, bluetooth: bool)

  function RateFor(bluetooth: bool): nat { if bluetooth then BT_SAMPLERATE else AUDIO_HW_OUT_SAMPLERATE }

  class OutStream {
    var state: StreamState
    var devices: Routes
    var enabled: Routes
    var requested: Routes
    var driverRate: nat

    constructor (devices: Routes)
      ensures state == Idle && this.devices == devices && driverRate == 44100
      ensures enabled == requested == Routes(false, false, false)
    {
      state, this.devices, driverRate := Idle, devices, AUDIO_HW_OUT_SAMPLERATE;
      enabled, requested := Routes(false, false, false), Routes(false, false, false);
    }

    /** The next write() will not carry out what was requested: it takes NewRateReq for a mere change of rate,
        and Configured for nothing to do. */
    ghost predicate RequestLost()
      reads this
    {
      enabled != requested && (state == NewRateReq || state == Configured)
    }

    /** setDriver_l(): a configured stream notices one kind of change, and only a configured one does.
        So a request is lost exactly if it is a change and comes while the stream waits for a new rate. */
    method SetDriver_l(routes: Routes, sampleRate: nat)
      modifies this`state, this`requested
      ensures requested == routes
      ensures RequestLost() <==> old(state) == NewRateReq && routes != enabled
      ensures state == if old(state) != Configured then old(state)
                       else if enabled != routes then ConfigReq
                       else if sampleRate != driverRate then NewRateReq else Configured
    {
      if state == Configured {
        if enabled.speaker != routes.speaker || enabled.bluetooth != routes.bluetooth || enabled.spdif != routes.spdif {
          state := ConfigReq;
        } else if sampleRate != driverRate {
          state := NewRateReq;
        }
      }
      requested := routes;
    }
  }

  class InStream {
    var state: StreamState
    var devices: Mics
    const sampleRate: nat
    const wantsEc: bool
    var enabled: Mics
    var driverRate: nat
    var configRate: nat  // config.rate, as the capture driver was last told

    constructor (devices: Mics, sampleRate: nat, wantsEc: bool)
      ensures state == Idle && this.devices == devices && this.sampleRate == sampleRate && this.wantsEc == wantsEc
      ensures enabled == Mics(false, false) && driverRate == 11025 && configRate == 0
    {
      state, this.devices, this.sampleRate, this.wantsEc := Idle, devices, sampleRate, wantsEc;
      enabled, driverRate, configRate := Mics(false, false), AUDIO_HW_IN_SAMPLERATE, 0;
    }

    /** The next online_l() will tell the capture driver the rate, or it has done so. */
    ghost predicate InSettled()
      reads this
    {
      state != NewRateReq && (state == Configured ==> configRate == driverRate)
    }

    /** The stream runs at the rate its reader wants, and the capture driver was told so. */
    ghost predicate Told()
      reads this
    {
      driverRate == configRate == sampleRate
    }

    /** setDriver_l(): unlike the output's, whatever the state was. A request for the same microphones
        that needs another rate, or finds such a request waiting, leaves the input unsettled. */
    method SetDriver_l(mics: Mics, sampleRate: nat)
      modifies this`state, this`enabled
      ensures enabled == mics
      ensures InSettled() <==> !(old(enabled) == mics && (sampleRate != driverRate || !old(InSettled())))
      ensures state == if old(enabled) != mics then ConfigReq
                       else if sampleRate != driverRate then NewRateReq else old(state)
    {
      if mics.mic != enabled.mic || mics.bluetooth != enabled.bluetooth {
        state := ConfigReq;
      } else if sampleRate != driverRate {
        state := NewRateReq;
      }
      enabled := mics;
    }
  }

  /** The first input that is not in standby. */
  ghost function Active(ins: seq<InStream>): InStream?
    reads ins
  {
    if ins == [] then null else if ins[0].state != Idle then ins[0] else Active(ins[1..])
  }

  /** Input k is not in standby, and all before it are. */
  ghost predicate FirstActive(ins: seq<InStream>, k: nat)
    reads ins
  {
    k < |ins| && ins[k].state != Idle && forall i :: 0 <= i < k ==> ins[i].state == Idle
  }

  lemma {:induction false} ActiveIsOne(ins: seq<InStream>)
    ensures Active(ins) != null ==> Active(ins) in ins && Active(ins).state != Idle
    ensures Active(ins) == null <==> forall i :: 0 <= i < |ins| ==> ins[i].state == Idle
  {
    if ins != [] {
      ActiveIsOne(ins[1..]);
      assert forall i :: 0 < i < |ins| ==> ins[i] == ins[1..][i - 1];
    }
  }

  lemma {:induction false} ActiveIsFirst(ins: seq<InStream>, k: nat)
    requires FirstActive(ins, k)
    ensures Active(ins) == ins[k]
  {
    if k > 0 {
      assert ins[0].state == Idle && forall i :: 0 <= i < k - 1 ==> ins[1..][i] == ins[i + 1];
      ActiveIsFirst(ins[1..], k - 1);
    }
  }

  /** Only whether the inputs are in standby decides which is active. */
  twostate lemma ActiveKept(ins: seq<InStream>)
    requires forall i :: i in ins ==> allocated(i) && (i.state == Idle <==> old(i.state) == Idle)
    ensures Active(ins) == old(Active(ins))
  {
    if ins != [] {
      assert ins[0] in ins;
      ActiveKept(ins[1..]);
    }
  }

  class Hardware {
    var mOutput: OutStream?
    var mInputs: seq<InStream>
    var hwOutRate: nat
    var hwInRate: nat
    var btScoOn: bool
    var ecRequested: bool
    ghost var failing: set<InStream>  // inputs that a read() which has failed is about to put in standby

    function Streams(): set<object>
      reads this
    {
      (set i: InStream | i in mInputs :: i as object) + (if mOutput == null then {} else {mOutput})
    }

    /** What the current devices ask of the output. */
    ghost function Wanted(): Routes
      requires mOutput != null
      reads this, mOutput, mInputs
    {
      var input := Active(mInputs);
      ActiveIsOne(mInputs);
      mOutput.devices.(bluetooth := mOutput.devices.bluetooth || (input != null && input.devices.bluetooth))
    }

    /** What a routing brings about: Bluetooth if either side's devices ask for it, and then 8000 samples a second
        everywhere; otherwise 44100 for the output and its own rate for the active input. */
    ghost predicate Routed()
      reads this, mInputs, if mOutput == null then {} else {mOutput}
    {
      mOutput != null ==>
        var input := Active(mInputs);
        ActiveIsOne(mInputs);
        && (btScoOn <==> mOutput.devices.bluetooth || (input != null && input.devices.bluetooth))
        && mOutput.requested == Routes(mOutput.devices.speaker, btScoOn, mOutput.devices.spdif)
        && hwOutRate == (if btScoOn then 8000 else 44100)
        && (btScoOn ==> hwInRate == 8000)
        && (input != null && !btScoOn ==> hwInRate == input.sampleRate)
        && (input != null ==> input.enabled == Mics(input.devices.mic, btScoOn))
    }

    /** The output is configured as it was last asked to be, or will be when it is next written to. */
    ghost predicate Settled()
      reads this, if mOutput == null then {} else {mOutput}
    {
      && mOutput != null
      && hwOutRate == RateFor(mOutput.requested.bluetooth)
      && mOutput.state != NewRateReq
      && (mOutput.state == Configured ==>
            mOutput.enabled == mOutput.requested && mOutput.driverRate == RateFor(mOutput.enabled.bluetooth))
    }

    /** Every input that is not in standby runs at its own rate, known to the capture driver, unless a
        read() that has failed is about to put it there. */
    ghost predicate InputsTold()
      reads this, mInputs
    {
      forall i :: i in mInputs && i.state != Idle ==> i.Told() || i in failing
    }

    /** outRate and inRate are what the kernel says at start-up. */
    constructor (outRate: nat, inRate: nat)
      ensures InputsTold() && mOutput == null && mInputs == [] && hwOutRate == outRate && !btScoOn && !ecRequested
      ensures failing == {}
    {
      mOutput, mInputs, hwOutRate, hwInRate, btScoOn, ecRequested := null, [], outRate, inRate, false, false;
      failing := {};
    }

    method GetActiveInput_l() returns (input: InStream?)
      ensures input == Active(mInputs)
      ensures input == null <==> forall i :: 0 <= i < |mInputs| ==> mInputs[i].state == Idle
      ensures input != null ==> exists k: nat :: FirstActive(mInputs, k) && input == mInputs[k]
    {
      var i := 0;
      while i < |mInputs|
        invariant 0 <= i <= |mInputs| && forall k :: 0 <= k < i ==> mInputs[k].state == Idle
      {
        if mInputs[i].state != Idle {
          ActiveIsFirst(mInputs, i);
          return mInputs[i];
        }
        i := i + 1;
      }
      ActiveIsOne(mInputs);
      return null;
    }

    /** doRouting_l(), here with what it found: the active input and the routes it chose. The output is
        settled afterwards unless a pure change of rate was noticed, now or before. */
    method DoRouting_l() returns (ghost input: InStream?, ghost routes: Routes)
      modifies this`hwOutRate, this`hwInRate, this`btScoOn, Streams()
      ensures mOutput == null ==> unchanged(this) && unchanged(Streams()) && input == null
      ensures Routed() && (mOutput != null && input == null && !btScoOn ==> hwInRate == old(hwInRate))
      ensures mOutput != null ==>
        && input == old(Active(mInputs)) && routes == old(Wanted())
        && hwOutRate == RateFor(routes.bluetooth) && btScoOn == routes.bluetooth
        && OutputRouted(mOutput, routes, hwOutRate, old(mOutput.state), old(mOutput.enabled), old(mOutput.driverRate),
          old(mOutput.devices))
        && (Settled() <==> !old(RateLost(mOutput, Wanted())))
        && (mOutput.RequestLost() <==> old(mOutput.state == NewRateReq && Wanted() != mOutput.enabled))
      ensures old(Settled()) ==> Settled()
      ensures input != null ==>
        && input in mInputs && hwInRate == (if btScoOn then BT_SAMPLERATE else input.sampleRate)
        && InputRouted(input, btScoOn, hwInRate, old(Active(mInputs).state), old(Active(mInputs).enabled))
        && (input.InSettled() <==>
              !(old(Active(mInputs).enabled) == input.enabled
                && (hwInRate != input.driverRate || !old(Active(mInputs).InSettled()))))
      ensures forall i :: i in mInputs ==>
        && InputKept(i, old(i.devices), old(i.driverRate), old(i.configRate))
        && (i.state == Idle <==> old(i.state) == Idle)
        && (i != input ==> i.state == old(i.state) && i.enabled == old(i.enabled))
    {
      input, routes := null, Routes(false, false, false);
      if mOutput == null { return; }
      var active := GetActiveInput_l();
      ActiveIsOne(mInputs);
      var out := mOutput.devices;
      var sco := out.bluetooth || (active != null && active.devices.bluetooth);
      SetDrivers_l(active, Routes(out.speaker, sco, out.spdif));
      ActiveKept(mInputs);
      input, routes := active, Routes(out.speaker, sco, out.spdif);
    }

    /** The second half of doRouting_l(): the rates, and both streams' drivers. */
    method SetDrivers_l(input: InStream?, routes: Routes)
      requires mOutput != null && (input != null ==> input in mInputs)
      modifies this`hwOutRate, this`hwInRate, this`btScoOn, mOutput`state, mOutput`requested
      modifies if input == null then {} else {input}
      ensures hwOutRate == RateFor(routes.bluetooth) && btScoOn == routes.bluetooth
      ensures hwOutRate == (if btScoOn then 8000 else 44100) && (btScoOn ==> hwInRate == 8000)
      ensures input == null && !btScoOn ==> hwInRate == old(hwInRate)
      ensures OutputRouted(mOutput, routes, hwOutRate, old(mOutput.state), old(mOutput.enabled),
        old(mOutput.driverRate), old(mOutput.devices))
      ensures input != null ==>
        && hwInRate == (if btScoOn then BT_SAMPLERATE else input.sampleRate)
        && InputRouted(input, btScoOn, hwInRate, old(input.state), old(input.enabled))
        && InputKept(input, old(input.devices), old(input.driverRate), old(input.configRate))
        && (input.InSettled() <==>
              !(old(input.enabled) == input.enabled && (hwInRate != input.driverRate || !old(input.InSettled()))))
    {
      if input != null {
        hwInRate := input.sampleRate;
      }
      hwOutRate := AUDIO_HW_OUT_SAMPLERATE;
      if routes.bluetooth {
        hwOutRate := BT_SAMPLERATE;
        hwInRate := BT_SAMPLERATE;
      }
      mOutput.SetDriver_l(routes, hwOutRate);
      if input != null {
        input.SetDriver_l(Mics(input.devices.mic, routes.bluetooth), hwInRate);
      }
      if routes.bluetooth != btScoOn {
        btScoOn := routes.bluetooth;
      }
    }

    // ----- the output stream

    /** The part of the output's online_l() that brings it out of standby. */
    method WakeOutput()
      requires mOutput != null && mOutput.state == Idle
      modifies this`hwOutRate, this`hwInRate, this`btScoOn, Streams()
      ensures mOutput.state == ConfigReq && mOutput.devices == old(mOutput.devices)
      ensures if old(Active(mInputs)) != null && ecRequested then Routed()
              else mOutput.requested == old(mOutput.requested) && hwOutRate == old(hwOutRate)
      ensures (old(Settled()) ==> Settled()) && (old(InputsTold()) ==> InputsTold())
    {
      mOutput.state := ConfigReq;
      var input := GetActiveInput_l();
      if input != null && ecRequested {
        var _, _ := DoRouting_l();
      }
    }

    /** online_l() of the output. */
    method OutOnline_l()
      requires mOutput != null
      modifies this`hwOutRate, this`hwInRate, this`btScoOn, Streams()
      ensures mOutput.state == Configured && mOutput.driverRate == hwOutRate && mOutput.devices == old(mOutput.devices)
      ensures old(mOutput.state) == Idle || old(mOutput.state) == ConfigReq ==> mOutput.enabled == mOutput.requested
      ensures old(mOutput.state) == NewRateReq ==> mOutput.enabled == old(mOutput.enabled)
      ensures old(mOutput.state) != Idle || old(Active(mInputs)) == null || !ecRequested ==>
        mOutput.requested == old(mOutput.requested) && hwOutRate == old(hwOutRate)
      ensures old(mOutput.state) == Idle && old(Active(mInputs)) != null && ecRequested ==> Routed()
      ensures (old(Settled()) ==> Settled()) && (old(InputsTold()) ==> InputsTold())
    {
      if mOutput.state == Idle || mOutput.state == ConfigReq {
        if mOutput.state == Idle {
          WakeOutput();
        }
        mOutput.enabled := mOutput.requested;
      }
      mOutput.driverRate := hwOutRate;
      mOutput.state := Configured;
    }

    /** The configuring part of write(): afterwards a settled stream is configured as requested. */
    method Write()
      requires mOutput != null
      modifies this`hwOutRate, this`hwInRate, this`btScoOn, Streams()
      ensures mOutput.state == Configured && mOutput.devices == old(mOutput.devices)
      ensures old(InputsTold()) ==> InputsTold()
      ensures old(Settled()) ==>
        && Settled() && mOutput.enabled == mOutput.requested
        && mOutput.driverRate == RateFor(mOutput.requested.bluetooth)
      ensures mOutput.enabled != mOutput.requested <==> old(mOutput.RequestLost())
      ensures old(mOutput.state) == NewRateReq || old(mOutput.state) == Configured ==>
        mOutput.enabled == old(mOutput.enabled)
      ensures mOutput.driverRate == if old(mOutput.state) == Configured then old(mOutput.driverRate) else hwOutRate
      ensures old(mOutput.state) != Idle || old(Active(mInputs)) == null || !ecRequested ==>
        mOutput.requested == old(mOutput.requested) && hwOutRate == old(hwOutRate)
      ensures old(mOutput.state) == Idle && old(Active(mInputs)) != null && ecRequested ==> Routed()
      ensures old(Settled()) ==> mOutput.driverRate == if mOutput.enabled.bluetooth then 8000 else 44100
    {
      if mOutput.state != Configured {
        OutOnline_l();
      }
    }

    method OutStandby()
      requires mOutput != null
      modifies this`hwOutRate, this`hwInRate, this`btScoOn, Streams()
      ensures mOutput.state == Idle && mOutput.enabled == old(mOutput.enabled) &&
        mOutput.driverRate == old(mOutput.driverRate)
      ensures if old(mOutput.state) != Idle && old(Active(mInputs)) != null && ecRequested then Routed()
              else mOutput.requested == old(mOutput.requested) && hwOutRate == old(hwOutRate)
      ensures (old(Settled()) ==> Settled()) && (old(InputsTold()) ==> InputsTold())
    {
      if mOutput.state != Idle {
        mOutput.state := Idle;
        var input := GetActiveInput_l();
        if input != null && ecRequested {
          var _, _ := DoRouting_l();
        }
      }
    }

    /** setParameters() of the output; no device at all is not a routing. */
    method SetOutDevices(devices: Routes)
      requires mOutput != null
      modifies this`hwOutRate, this`hwInRate, this`btScoOn, Streams()
      ensures (old(Settled()) ==> Settled()) && (old(InputsTold()) ==> InputsTold())
      ensures devices == Routes(false, false, false) ==> unchanged(this) && unchanged(Streams())
      ensures devices != Routes(false, false, false) ==> mOutput.devices == devices && Routed()
      ensures devices != Routes(false, false, false) ==>
        var input := old(Active(mInputs));
        var sco := devices.bluetooth || (input != null && old(Active(mInputs).devices).bluetooth);
        var routes := devices.(bluetooth := sco);
        && hwOutRate == RateFor(routes.bluetooth)
        && OutputRouted(mOutput, routes, hwOutRate, old(mOutput.state), old(mOutput.enabled), old(mOutput.driverRate),
          devices)
    {
      if devices != Routes(false, false, false) {
        mOutput.devices := devices;
        var _, _ := DoRouting_l();
      }
    }

    method OpenOutputStream(devices: Routes) returns (isNew: bool)
      modifies this`mOutput
      ensures isNew <==> old(mOutput) == null
      ensures isNew ==>
        && mOutput != null && fresh(mOutput) && mOutput.state == Idle && mOutput.devices == devices
        && mOutput.enabled == mOutput.requested == Routes(false, false, false)
      ensures !isNew ==> mOutput == old(mOutput)
    {
      isNew := mOutput == null;
      if isNew {
        mOutput := new OutStream(devices);
      }
    }

    /** closeOutputStream(): the standby of the stream that is deleted finds no output to route. */
    method CloseOutputStream()
      modifies this, Streams()
      ensures mOutput == null && mInputs == old(mInputs) && (old(InputsTold()) ==> InputsTold())
      ensures old(mOutput) != null ==> old(mOutput).state == Idle
      ensures hwOutRate == old(hwOutRate) && hwInRate == old(hwInRate)
    {
      var out := mOutput;
      mOutput := null;
      if out != null && out.state != Idle {
        out.state := Idle;
        var input := GetActiveInput_l();
        if input != null && ecRequested {
          var _, _ := DoRouting_l();
        }
      }
    }

    // ----- the input streams

    ghost predicate OthersIdle(i: InStream)
      reads this, mInputs
    {
      forall k :: k in mInputs && k != i ==> k.state == Idle
    }

    /** The part of an input's online_l() that brings it out of standby. */
    method WakeInput(i: InStream)
      requires i in mInputs && i.state == Idle
      modifies this`hwOutRate, this`hwInRate, this`btScoOn, this`ecRequested, Streams()
      ensures i.state != Idle && InputKept(i, old(i.devices), old(i.driverRate), old(i.configRate))
      ensures ecRequested == (old(ecRequested) || i.wantsEc) && Routed()
      ensures mOutput != null && old(OthersIdle(i)) ==>
        && hwInRate == (if btScoOn then BT_SAMPLERATE else i.sampleRate)
        && i.enabled == Mics(i.devices.mic, btScoOn) && btScoOn == (mOutput.devices.bluetooth || i.devices.bluetooth)
      ensures mOutput != null ==> mOutput.devices == old(mOutput.devices)
      ensures forall k :: k in mInputs && k != i ==>
        && InputKept(k, old(k.devices), old(k.driverRate), old(k.configRate))
        && (k.state == Idle <==> old(k.state) == Idle)
      ensures old(Settled()) ==> Settled()
    {
      i.state := ConfigReq;
      ecRequested := ecRequested || i.wantsEc;
      ActiveIsOne(mInputs);
      var _, _ := DoRouting_l();
    }

    /** online_l() of an input: the capture driver is told the rate, except after NewRateReq. */
    method InOnline_l(i: InStream)
      requires i in mInputs
      modifies this`hwOutRate, this`hwInRate, this`btScoOn, this`ecRequested, Streams()
      ensures i.state == Configured && i.driverRate == hwInRate && i.devices == old(i.devices)
      ensures i.configRate == if old(i.state) == Idle || old(i.state) == ConfigReq then hwInRate else old(i.configRate)
      ensures old(i.state) == NewRateReq ==> (i.InSettled() <==> old(i.configRate) == old(hwInRate))
      ensures old(i.state) == Idle || old(i.state) == ConfigReq ==> i.InSettled()
      ensures old(i.state) != Idle ==> hwInRate == old(hwInRate) && i.enabled == old(i.enabled)
      ensures old(i.state) == Idle && mOutput != null && old(OthersIdle(i)) ==>
        && hwInRate == (if btScoOn then BT_SAMPLERATE else i.sampleRate)
        && i.enabled == Mics(i.devices.mic, btScoOn) && btScoOn == (mOutput.devices.bluetooth || i.devices.bluetooth)
      ensures mOutput != null ==> mOutput.devices == old(mOutput.devices)
      ensures ecRequested == (old(ecRequested) || (old(i.state) == Idle && i.wantsEc))
      ensures old(i.state) == Idle ==> Routed()
      ensures forall k :: k in mInputs && k != i ==>
        && InputKept(k, old(k.devices), old(k.driverRate), old(k.configRate))
        && (k.state == Idle <==> old(k.state) == Idle)
      ensures old(Settled()) ==> Settled()
    {
      var configures := i.state == Idle || i.state == ConfigReq;
      if i.state == Idle {
        WakeInput(i);
      }
      label Woken:
      if configures {
        i.configRate := hwInRate;
      }
      i.driverRate := hwInRate;
      i.state := Configured;
      ActiveKept@Woken(mInputs);
    }

    /** read() up to the transfer, while nothing else happens: an input that does not run at its own rate
        fails and goes to standby. */
    method Read(i: InStream) returns (ok: bool)
      requires i in mInputs
      modifies this`hwOutRate, this`hwInRate, this`btScoOn, this`ecRequested, this`failing, Streams()
      ensures i.state == if ok then Configured else Idle
      ensures failing == if ok then old(failing) else old(failing) - {i}
      ensures (old(Settled()) ==> Settled()) && (old(InputsTold()) ==> InputsTold())
      ensures old(i.state) == Configured ==> (ok <==> old(i.driverRate) == i.sampleRate)
      ensures old(i.state) == ConfigReq || old(i.state) == NewRateReq ==> (ok <==> old(hwInRate) == i.sampleRate)
      ensures old(i.state) == Idle && mOutput != null && old(OthersIdle(i)) ==>
        (ok <==> i.sampleRate == BT_SAMPLERATE || !(old(mOutput.devices.bluetooth) || old(i.devices.bluetooth)))
      ensures ok && old(i.state) == Configured ==> unchanged(this) && unchanged(Streams())
      ensures ok && (old(i.state) == Idle || old(i.state) == ConfigReq) ==> i.Told()
      ensures ok && old(i.state) == NewRateReq ==> i.configRate == old(i.configRate) && i.driverRate == i.sampleRate
      ensures ok && old(i.state) == Idle && mOutput != null && old(OthersIdle(i)) ==>
        i.enabled == Mics(old(i.devices.mic), old(mOutput.devices.bluetooth) || old(i.devices.bluetooth))
      ensures i.devices == old(i.devices) && (mOutput != null ==> mOutput.devices == old(mOutput.devices))
    {
      ok := StartRead(i);
      if !ok {
        FailRead(i);
      }
    }

    /** The first part of read(): online_l() if need be, and the look at the rates. Between a failure and the
        standby that follows neither lock is held, so anything may happen there. */
    method StartRead(i: InStream) returns (ok: bool)
      requires i in mInputs
      modifies this`hwOutRate, this`hwInRate, this`btScoOn, this`ecRequested, this`failing, Streams()
      ensures i.state == Configured && failing == if ok then old(failing) else old(failing) + {i}
      ensures (old(Settled()) ==> Settled()) && (old(InputsTold()) ==> InputsTold())
      ensures ok <==> i.driverRate == i.sampleRate
      ensures i.driverRate == if old(i.state) == Configured then old(i.driverRate) else hwInRate
      ensures old(i.state) == Idle ==> Routed() && ecRequested == (old(ecRequested) || i.wantsEc)
      ensures i.configRate == if old(i.state) == Idle || old(i.state) == ConfigReq then hwInRate else old(i.configRate)
      ensures old(i.state) != Idle ==> hwInRate == old(hwInRate) && i.enabled == old(i.enabled)
      ensures old(i.state) == Idle && mOutput != null && old(OthersIdle(i)) ==>
        && hwInRate == (if btScoOn then BT_SAMPLERATE else i.sampleRate)
        && i.enabled == Mics(i.devices.mic, btScoOn) && btScoOn == (mOutput.devices.bluetooth || i.devices.bluetooth)
      ensures ok && old(i.state) == Configured ==> unchanged(this) && unchanged(Streams())
      ensures i.devices == old(i.devices) && (mOutput != null ==> mOutput.devices == old(mOutput.devices))
    {
      if i.state != Configured {
        InOnline_l(i);
      }
      ok := i.driverRate == i.sampleRate;
      if !ok {
        failing := failing + {i};
      }
    }

    /** The standby() of a read() that has failed. */
    method FailRead(i: InStream)
      requires i in mInputs
      modifies this`hwOutRate, this`hwInRate, this`btScoOn, this`ecRequested, this`failing, Streams()
      ensures i.state == Idle && failing == old(failing) - {i} && i.devices == old(i.devices)
      ensures old(i.state) != Idle ==> !ecRequested && Routed()
      ensures mOutput != null ==> mOutput.devices == old(mOutput.devices)
      ensures (old(Settled()) ==> Settled()) && (old(InputsTold()) ==> InputsTold())
    {
      assert i as object in Streams();
      InStandby(i);
      failing := failing - {i};
    }

    /** standby() of an input, also of one that closeInputStream() has just removed. */
    method InStandby(i: InStream)
      modifies this`hwOutRate, this`hwInRate, this`btScoOn, this`ecRequested, i, Streams()
      ensures i.state == Idle
      ensures i.enabled == old(i.enabled) && i.configRate == old(i.configRate) && i.devices == old(i.devices)
      ensures old(i.state) == Idle ==> unchanged(this) && unchanged(Streams()) && unchanged(i)
      ensures old(i.state) != Idle ==> !ecRequested && Routed()
      ensures old(i.state) != Idle ==> mOutput != null ==> hwOutRate == RateFor(mOutput.requested.bluetooth)
      ensures mOutput != null ==> mOutput.devices == old(mOutput.devices)
      ensures (old(Settled()) ==> Settled()) && (old(InputsTold()) ==> InputsTold())
      ensures forall k :: k in mInputs && k != i ==>
        && InputKept(k, old(k.devices), old(k.driverRate), old(k.configRate))
        && (k.state == Idle <==> old(k.state) == Idle)
    {
      if i.state != Idle {
        i.state := Idle;
        ecRequested := false;
        ActiveIsOne(mInputs);
        var _, _ := DoRouting_l();
      }
    }

    /** setParameters() of an input: more than one device is refused, and only an active one is routed anew. */
    method SetInDevices(i: InStream, devices: Mics) returns (ok: bool)
      requires i in mInputs
      modifies this`hwOutRate, this`hwInRate, this`btScoOn, Streams()
      ensures ok <==> !(devices.mic && devices.bluetooth)
      ensures !ok ==> unchanged(this) && unchanged(Streams())
      ensures ok ==>
        InputKept(i, devices, old(i.driverRate), old(i.configRate)) && (i.state == Idle <==> old(i.state) == Idle)
      ensures ok && (old(i.state) == Idle || devices == Mics(false, false)) ==>
        unchanged(this) && i.state == old(i.state) && i.enabled == old(i.enabled)
      ensures ok && old(i.state) != Idle && devices != Mics(false, false) ==> Routed()
      ensures ok && old(i.state) != Idle && devices != Mics(false, false) && mOutput != null && old(OthersIdle(i)) ==>
        && i.enabled == Mics(devices.mic, btScoOn) && btScoOn == (mOutput.devices.bluetooth || devices.bluetooth)
        && hwInRate == (if btScoOn then BT_SAMPLERATE else i.sampleRate)
        && InputRouted(i, btScoOn, hwInRate, old(i.state), old(i.enabled))
      ensures (old(Settled()) ==> Settled()) && (old(InputsTold()) ==> InputsTold())
    {
      ok := !(devices.mic && devices.bluetooth);
      if ok {
        i.devices := devices;
        if i.state != Idle && devices != Mics(false, false) {
          ActiveIsOne(mInputs);
          var _, _ := DoRouting_l();
        }
      }
    }

    method OpenInputStream(devices: Mics, sampleRate: nat, wantsEc: bool) returns (i: InStream)
      modifies this`mInputs
      ensures mInputs == old(mInputs) + [i] && fresh(i)
      ensures i.state == Idle && i.devices == devices && i.sampleRate == sampleRate && i.wantsEc == wantsEc
      ensures i.enabled == Mics(false, false)
      ensures (old(Settled()) ==> Settled()) && (old(InputsTold()) ==> InputsTold())
    {
      i := new InStream(devices, sampleRate, wantsEc);
      mInputs := mInputs + [i];
    }

    /** closeInputStream(): the deleted stream goes to standby when it is no longer among the inputs. */
    method CloseInputStream(n: nat)
      requires n < |mInputs|
      modifies this`mInputs, this`hwOutRate, this`hwInRate, this`btScoOn, this`ecRequested, Streams()
      ensures mInputs == old(mInputs[..n] + mInputs[n + 1..]) && old(mInputs[n]).state == Idle
      ensures Streams() <= old(Streams()) && (old(mInputs[n].state) != Idle ==> !ecRequested && Routed())
      ensures (old(Settled()) ==> Settled()) && (old(InputsTold()) ==> InputsTold())
    {
      var i := mInputs[n];
      assert i in mInputs && i as object in Streams();
      mInputs := mInputs[..n] + mInputs[n + 1..];
      assert forall k :: k in mInputs ==> k in old(mInputs);
      InStandby(i);
    }

    // ----- whole runs

    /** One request of a client; inputs are named by their place among the open ones. */
    method Perform(r: Request)
      modifies this, Streams()
      ensures old(InputsTold()) ==> InputsTold()
      ensures r != CloseOutput && old(Settled()) ==> Settled()
      ensures fresh(Streams() - old(Streams()))
      ensures match r
        case OpenOutput(_) => mOutput != null
        case CloseOutput => mOutput == null
        case WriteOutput => mOutput != null ==> mOutput.state == Configured
        case StandbyOutput => mOutput != null ==> mOutput.state == Idle
        case RouteOutput(routes) => mOutput != null && routes != Routes(false, false, false) ==> Routed()
        case Route => Routed()
        case OpenInput(_, _, _) => |mInputs| == old(|mInputs|) + 1
        case CloseInput(n) => |mInputs| == old(|mInputs|) - if n < old(|mInputs|) then 1 else 0
        case ReadInput(n) => n < |mInputs| ==> mInputs[n].state == Configured
        case FailInput(n) => n < |mInputs| ==> mInputs[n].state == Idle
        case StandbyInput(n) => n < |mInputs| ==> mInputs[n].state == Idle
        case RouteInput(n, mics) =>
          n < |mInputs| && mInputs[n].state != Idle && mics != Mics(false, false) && !(mics.mic && mics.bluetooth) ==>
            mInputs[n].devices == mics && Routed()
    {
      match r
      case OpenOutput(routes) => var _ := OpenOutputStream(routes);
      case CloseOutput => CloseOutputStream();
      case WriteOutput => if mOutput != null { Write(); }
      case StandbyOutput => if mOutput != null { OutStandby(); }
      case RouteOutput(routes) => if mOutput != null { SetOutDevices(routes); }
      case Route => var _, _ := DoRouting_l();
      case OpenInput(mics, rate, wantsEc) => var _ := OpenInputStream(mics, rate, wantsEc);
      case CloseInput(n) => if n < |mInputs| { CloseInputStream(n); }
      case ReadInput(n) => if n < |mInputs| { var _ := StartRead(mInputs[n]); }
      case FailInput(n) => if n < |mInputs| { FailRead(mInputs[n]); }
      case StandbyInput(n) =>
        if n < |mInputs| {
          assert mInputs[n] in mInputs && mInputs[n] as object in Streams();
          InStandby(mInputs[n]);
        }
      case RouteInput(n, mics) => if n < |mInputs| { var _ := SetInDevices(mInputs[n], mics); }
    }

    /** Any run of requests, in which anything may come between a read() that fails and its standby: once
        the output is settled it stays so until it is closed, and every input that is not in standby runs at its
        own rate, known to the capture driver, unless such a standby is still to come. */
    method PerformAll(rs: seq<Request>)
      requires InputsTold()
      modifies this, Streams()
      ensures InputsTold()
      ensures CloseOutput !in rs && old(Settled()) ==> Settled()
    {
      for k := 0 to |rs|
        invariant InputsTold()
        invariant CloseOutput !in rs && old(Settled()) ==> Settled()
        invariant fresh(Streams() - old(Streams()))
      {
        Perform(rs[k]);
      }
    }
  }

  datatype Request =
    | OpenOutput(routes: Routes) | CloseOutput | WriteOutput | StandbyOutput | RouteOutput(routes: Routes) | Route
    | OpenInput(mics: Mics, rate: nat, wantsEc: bool) | CloseInput(n: nat) | ReadInput(n: nat) | FailInput(n: nat)
    | StandbyInput(n: nat) | RouteInput(n: nat, mics: Mics)

  /** The states from which a routing leaves a request that the next write() will not carry out. */
  ghost predicate RateLost(o: OutStream, routes: Routes)
    reads o
  {
    || o.state == NewRateReq
    || (o.state == Configured && o.enabled == routes && o.driverRate != RateFor(routes.bluetooth))
  }

  ghost predicate OutputRouted(o: OutStream, routes: Routes, rate: nat, state: StreamState, enabled: Routes,
      driverRate: nat, devices: Routes)
    reads o
  {
    && o.requested == routes && o.enabled == enabled && o.driverRate == driverRate && o.devices == devices
    && o.state == if state != Configured then state
                  else if enabled != routes then ConfigReq
                  else if rate != driverRate then NewRateReq else Configured
  }

  ghost predicate InputRouted(i: InStream, sco: bool, rate: nat, state: StreamState, enabled: Mics)
    reads i
  {
    && i.enabled == Mics(i.devices.mic, sco)
    && i.state == if enabled != i.enabled then ConfigReq else if rate != i.driverRate then NewRateReq else state
  }

  ghost predicate InputKept(i: InStream, devices: Mics, driverRate: nat, configRate: nat)
    reads i
  {
    i.devices == devices && i.driverRate == driverRate && i.configRate == configRate
  }

  // ----- two runs

  /** An output that is written to before it is first routed, at a rate the kernel chose, takes that
      routing for a mere change of rate; the speaker it is then asked for is not switched on until it is
      asked for once more. */
  method OutputRequestLost() returns (requested: Routes, first: Routes, second: Routes)
    ensures requested == Routes(true, false, false)
    ensures first == Routes(false, false, false) && second == requested
  {
    requested := Routes(true, false, false);
    var hw := new Hardware(8000, 8000);
    var isNew := hw.OpenOutputStream(Routes(false, false, false));
    assert Active(hw.mInputs) == null;
    hw.Write();
    var _, _ := hw.DoRouting_l();
    hw.SetOutDevices(requested);
    hw.Write();
    first := hw.mOutput.enabled;
    hw.SetOutDevices(requested);
    hw.Write();
    second := hw.mOutput.enabled;
  }

  /** An input that is routed twice before it is next read: setDriver_l() finds it in ConfigReq and replaces
      that by NewRateReq. The read that then skips the configuration fails on its rate. */
  method ConfigRequestReplaced() returns (first: StreamState, second: StreamState, ok: bool)
    ensures first == ConfigReq && second == NewRateReq && !ok
  {
    var hw := new Hardware(44100, 8000);
    var isNew := hw.OpenOutputStream(Routes(true, false, false));
    var i := hw.OpenInputStream(Mics(true, false), 16000, false);
    assert Active([i]) == null;
    ok := hw.Read(i);
    assert ok && i.enabled == Mics(true, false);
    hw.mOutput.devices := Routes(false, true, false);
    assert Active([i]) == i;
    var _, _ := hw.DoRouting_l();
    first := i.state;
    assert Active([i]) == i;
    var _, _ := hw.DoRouting_l();
    second := i.state;
    ok := hw.Read(i);
  }
}
